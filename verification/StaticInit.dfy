/** Which static initializers run again at time 0 (src/lib.rs, walk_module_static_inits;
    IEEE 1800-2017 section 6.21). */
module StaticInit {
  import opened Results
  import opened Worklists

  type Path = seq<string>

  /** The expression forms that the classification branches on. `selects` are those of all
      segments of a path, in order. `Call` stands for every form not listed. */
  datatype Expr =
    | Literal(value: int)
    | Ident(rooted: bool, path: Path, selects: seq<Expr>)
    | Unary(op: string, operand: Expr)
    | Binary(op: string, left: Expr, right: Expr)
    | Conditional(condition: Expr, thenExpr: Expr, elseExpr: Expr)
    | Concatenation(parts: seq<Expr>)
    | Paren(inner: Expr)
    | MemberAccess(expr: Expr, member: string)
    | Index(expr: Expr, index: Expr)
    | Slice(expr: Expr, left: Expr, right: Expr)
    | SystemCall(name: string, args: seq<Expr>)
    | Call(name: string, args: seq<Expr>)

  datatype Decl = Decl(name: string, init: Expr)

  const ELAB_CONST_SYSFUNCS: set<string> := {
    "$clog2", "$bits", "$unsigned", "$signed", "$countones", "$onehot", "$onehot0", "$isunknown",
    "$countbits", "$size", "$left", "$right", "$high", "$low", "$dimensions" }

  const CASTS: set<string> := { "$__xz_named_cast", "$__xz_type_cast", "$__xz_size_cast" }

  // ---------------------------------------------------------------- the classification

  /** The direct sub-expressions, left to right. */
  function Parts(e: Expr): seq<Expr> {
    match e
    case Literal(_) => []
    case Ident(_, _, xs) => xs
    case Unary(_, x) => [x]
    case Binary(_, l, r) => [l, r]
    case Conditional(c, t, f) => [c, t, f]
    case Concatenation(ps) => ps
    case Paren(x) => [x]
    case MemberAccess(x, _) => [x]
    case Index(x, i) => [x, i]
    case Slice(x, l, r) => [x, l, r]
    case SystemCall(_, xs) => xs
    case Call(_, xs) => xs
  }

  predicate SimtimeName(name: string) {
    name !in ELAB_CONST_SYSFUNCS && name !in CASTS
  }

  /** Some sub-expression calls a system function that elaboration cannot evaluate. */
  predicate CallsSimtime(e: Expr) {
    (e.SystemCall? && SimtimeName(e.name)) || exists k :: 0 <= k < |Parts(e)| && CallsSimtime(Parts(e)[k])
  }

  predicate HasCall(e: Expr) {
    e.Call? || exists k :: 0 <= k < |Parts(e)| && HasCall(Parts(e)[k])
  }

  /** The parameters elaboration knows, by flat name, and the instance scope of the declarations. */
  datatype Scope = Scope(path: string, parameters: set<string>) {
    predicate HasParam(n: string) {
      n in parameters || (path != "" && path + "." + n in parameters)
    }
  }

  /** Elaboration took `e` for a constant and folded it. */
  predicate Folds(sc: Scope, e: Expr) {
    match e
    case Literal(_) => true
    case Ident(_, path, _) =>
      var last := if path == [] then "" else path[|path| - 1];
      var base := if path == [] then "" else path[0];
      sc.HasParam(last) || (|path| > 1 && sc.HasParam(base))
    case MemberAccess(x, member) => Folds(sc, x) || sc.HasParam(member)
    case Slice(_, _, _) => false
    case Call(_, _) => false
    case _ => forall k :: 0 <= k < |Parts(e)| ==> Folds(sc, Parts(e)[k])
  }

  predicate Bare(rooted: bool, path: Path) {
    !rooted && |path| == 1
  }

  /** The names that `e` mentions without a path. */
  function BareReads(e: Expr): set<string> {
    (if e.Ident? && Bare(e.rooted, e.path) then {e.path[0]} else {})
    + set k, n | 0 <= k < |Parts(e)| && n in BareReads(Parts(e)[k]) :: n
  }

  predicate ReadsAny(e: Expr, names: set<string>) {
    exists n :: n in BareReads(e) && n in names
  }

  // ---------------------------------------------------------------- what the classification looks for

  /** `x` is `e` or one of its sub-expressions at any depth. */
  ghost predicate Inside(x: Expr, e: Expr) {
    x == e || exists k :: 0 <= k < |Parts(e)| && Inside(x, Parts(e)[k])
  }

  /** Elaboration knows a parameter of that name, in the table's own scope or under the instance. */
  ghost predicate IsParam(sc: Scope, n: string) {
    exists p :: p in sc.parameters && (p == n || (sc.path != "" && p == sc.path + "." + n))
  }

  /** `x` is a sub-expression that elaboration looks at to fold `e`: not a select of an identifier,
      and not the inside of a member access whose member is a parameter. */
  ghost predicate LookedAt(sc: Scope, x: Expr, e: Expr) {
    || x == e
    || (!e.Ident? && !(e.MemberAccess? && IsParam(sc, e.member))
        && exists k :: 0 <= k < |Parts(e)| && LookedAt(sc, x, Parts(e)[k]))
  }

  /** A slice, a form that is never constant, or an identifier that is no parameter: not its last
      segment, and not the first of several. */
  ghost predicate NotConstant(sc: Scope, x: Expr) {
    || x.Slice? || x.Call?
    || (x.Ident?
        && !IsParam(sc, if x.path == [] then "" else x.path[|x.path| - 1])
        && !(|x.path| > 1 && IsParam(sc, x.path[0])))
  }

  lemma HasParamIff(sc: Scope, n: string)
    ensures sc.HasParam(n) <==> IsParam(sc, n)
  {
  }

  /** An expression is folded if and only if nothing that elaboration looks at is no constant. */
  lemma {:induction false} FoldsIff(sc: Scope, e: Expr)
    ensures Folds(sc, e) <==> forall x :: LookedAt(sc, x, e) ==> !NotConstant(sc, x)
  {
    forall k | 0 <= k < |Parts(e)|
      ensures Folds(sc, Parts(e)[k]) <==> forall x :: LookedAt(sc, x, Parts(e)[k]) ==> !NotConstant(sc, x)
    {
      FoldsIff(sc, Parts(e)[k]);
    }
    assert LookedAt(sc, e, e);
    FoldsHere(sc, e);
  }

  lemma FoldsHere(sc: Scope, e: Expr)
    ensures Folds(sc, e) <==>
      !NotConstant(sc, e) && (e.Ident? || (e.MemberAccess? && IsParam(sc, e.member))
                              || forall k :: 0 <= k < |Parts(e)| ==> Folds(sc, Parts(e)[k]))
  {
    match e
    case Ident(_, path, _) =>
      HasParamIff(sc, if path == [] then "" else path[|path| - 1]);
      HasParamIff(sc, if path == [] then "" else path[0]);
    case MemberAccess(x, member) =>
      HasParamIff(sc, member);
      assert Parts(e)[0] == x;
    case _ =>
  }

  /** In particular, without member accesses: no slice and no call that is looked at, and every
      identifier names a parameter. With one outside: its member does, or its base is folded. */
  lemma MemberFolds(sc: Scope, x: Expr, member: string)
    ensures Folds(sc, MemberAccess(x, member)) <==> IsParam(sc, member) || Folds(sc, x)
  {
    HasParamIff(sc, member);
  }

  /** A seed contains a system call of a name that elaboration cannot evaluate. */
  lemma {:induction false} CallsSimtimeIff(e: Expr)
    ensures var evaluated := {
        "$clog2", "$bits", "$unsigned", "$signed", "$countones", "$onehot", "$onehot0", "$isunknown", "$countbits",
        "$size", "$left", "$right", "$high", "$low", "$dimensions",
        "$__xz_named_cast", "$__xz_type_cast", "$__xz_size_cast"};
      CallsSimtime(e) <==> exists x :: Inside(x, e) && x.SystemCall? && x.name !in evaluated
  {
    forall k | 0 <= k < |Parts(e)|
      ensures CallsSimtime(Parts(e)[k]) <==> exists x :: Inside(x, Parts(e)[k]) && x.SystemCall? && SimtimeName(x.name)
    {
      CallsSimtimeIff(Parts(e)[k]);
    }
    assert Inside(e, e);
  }

  lemma {:induction false} HasCallIff(e: Expr)
    ensures HasCall(e) <==> exists x :: Inside(x, e) && x.Call?
  {
    forall k | 0 <= k < |Parts(e)| ensures HasCall(Parts(e)[k]) <==> exists x :: Inside(x, Parts(e)[k]) && x.Call? {
      HasCallIff(Parts(e)[k]);
    }
    assert Inside(e, e);
  }

  /** A name is read bare where some identifier inside is that name alone, selected or not. */
  lemma {:induction false} BareReadsIff(e: Expr, n: string)
    ensures n in BareReads(e) <==> exists x :: Inside(x, e) && x.Ident? && !x.rooted && x.path == [n]
  {
    forall k | 0 <= k < |Parts(e)|
      ensures n in BareReads(Parts(e)[k]) <==> exists x :: Inside(x, Parts(e)[k]) && x.Ident? && !x.rooted && x.path == [n]
    {
      BareReadsIff(Parts(e)[k], n);
    }
    assert Inside(e, e);
    if e.Ident? && Bare(e.rooted, e.path) { assert e.path == [e.path[0]]; }
  }

  /** An expression is its kind, its names and its parts: none is left out. */
  function Shell(e: Expr): (string, string, bool, Path, int) {
    match e
    case Literal(v) => ("literal", "", false, [], v)
    case Ident(rooted, path, _) => ("identifier", "", rooted, path, 0)
    case Unary(op, _) => ("unary", op, false, [], 0)
    case Binary(op, _, _) => ("binary", op, false, [], 0)
    case Conditional(_, _, _) => ("conditional", "", false, [], 0)
    case Concatenation(_) => ("concatenation", "", false, [], 0)
    case Paren(_) => ("parentheses", "", false, [], 0)
    case MemberAccess(_, member) => ("member", member, false, [], 0)
    case Index(_, _) => ("index", "", false, [], 0)
    case Slice(_, _, _) => ("slice", "", false, [], 0)
    case SystemCall(name, _) => ("system call", name, false, [], 0)
    case Call(name, _) => ("call", name, false, [], 0)
  }

  lemma PartsAreAll(e: Expr, f: Expr)
    ensures Shell(e) == Shell(f) && Parts(e) == Parts(f) <==> e == f
  {
    if Shell(e) == Shell(f) && Parts(e) == Parts(f) {
      forall k | 0 <= k < |Parts(e)| ensures Parts(e)[k] == Parts(f)[k] {
      }
    }
  }

  // ---------------------------------------------------------------- the set that runs again

  predicate Seed(d: Decl) {
    CallsSimtime(d.init)
  }

  predicate HasSeed(ds: seq<Decl>) {
    exists k :: 0 <= k < |ds| && Seed(ds[k])
  }

  function NamesOf(ds: seq<Decl>): set<string> {
    set k | 0 <= k < |ds| :: ds[k].name
  }

  /** `r` contains the seeds and every declaration that reads a member of `r`. */
  ghost predicate ClosedUnder(ds: seq<Decl>, r: set<string>) {
    forall k :: 0 <= k < |ds| && (Seed(ds[k]) || ReadsAny(ds[k].init, r)) ==> ds[k].name in r
  }

  ghost predicate Least(ds: seq<Decl>, r: set<string>) {
    ClosedUnder(ds, r) && forall t: set<string> :: ClosedUnder(ds, t) ==> r <= t
  }

  /** The names that `r` gains because elaboration never folded them. */
  function Unfolded(sc: Scope, ds: seq<Decl>): set<string> {
    set k | 0 <= k < |ds| && !Folds(sc, ds[k].init) :: ds[k].name
  }

  lemma ReadsMore(e: Expr, r: set<string>, t: set<string>)
    requires ReadsAny(e, r) && r <= t
    ensures ReadsAny(e, t)
  {
  }

  /** The seeds, in declaration order. */
  method Seeds(ds: seq<Decl>) returns (reissue: seq<string>)
    ensures forall n :: n in reissue <==> exists k :: 0 <= k < |ds| && Seed(ds[k]) && ds[k].name == n
  {
    reissue := [];
    for i := 0 to |ds|
      invariant forall n :: n in reissue <==> exists k :: 0 <= k < i && Seed(ds[k]) && ds[k].name == n
    {
      if CallsSimtime(ds[i].init) {
        reissue := reissue + [ds[i].name];
      }
    }
  }

  /** Every closed set contains `r`. */
  ghost predicate Forced(ds: seq<Decl>, r: set<string>) {
    forall t: set<string> :: ClosedUnder(ds, t) ==> r <= t
  }

  /** The first `i` declarations that read a member of `r` are in `r`. */
  ghost predicate ReadersIn(ds: seq<Decl>, i: nat, r: set<string>) {
    forall k :: 0 <= k < i <= |ds| && ReadsAny(ds[k].init, r) ==> ds[k].name in r
  }

  lemma ReaderForced(ds: seq<Decl>, r: set<string>, i: nat)
    requires i < |ds| && Forced(ds, r) && ReadsAny(ds[i].init, r)
    ensures Forced(ds, r + {ds[i].name})
  {
    forall t: set<string> | ClosedUnder(ds, t) ensures ds[i].name in t {
      ReadsMore(ds[i].init, r, t);
    }
  }

  /** One round over the declarations: readers of members join. */
  method Round(ds: seq<Decl>, was: seq<string>) returns (reissue: seq<string>, changed: bool)
    requires Forced(ds, Elems(was)) && Elems(was) <= NamesOf(ds)
    ensures Forced(ds, Elems(reissue)) && Elems(was) <= Elems(reissue) <= NamesOf(ds)
    ensures if changed then Elems(was) != Elems(reissue) else reissue == was && ReadersIn(ds, |ds|, Elems(was))
  {
    reissue, changed := was, false;
    for i := 0 to |ds|
      invariant Forced(ds, Elems(reissue)) && Elems(was) <= Elems(reissue) <= NamesOf(ds)
      invariant if changed then Elems(was) != Elems(reissue) else reissue == was && ReadersIn(ds, i, Elems(was))
    {
      var d := ds[i];
      if d.name in reissue {
        continue;
      }
      if exists n :: n in BareReads(d.init) && n in reissue {
        assert ReadsAny(d.init, Elems(reissue));
        ReaderForced(ds, Elems(reissue), i);
        Pushed(reissue, d.name);
        assert d.name in NamesOf(ds) && d.name !in Elems(was);
        reissue, changed := reissue + [d.name], true;
      }
    }
  }

  /** The rounds stop, and what they stop at is the least set that contains the seeds and
      every reader of a member. */
  method Fixpoint(ds: seq<Decl>) returns (reissue: seq<string>)
    ensures Least(ds, Elems(reissue))
  {
    reissue := Seeds(ds);
    var changed := true;
    while changed
      invariant Forced(ds, Elems(reissue)) && Elems(reissue) <= NamesOf(ds)
      invariant forall k :: 0 <= k < |ds| && Seed(ds[k]) ==> ds[k].name in Elems(reissue)
      invariant !changed ==> ReadersIn(ds, |ds|, Elems(reissue))
      decreases NamesOf(ds) - Elems(reissue), changed
    {
      reissue, changed := Round(ds, reissue);
    }
  }

  /** The names whose initializers run again: none without a seed, else the least closed set
      and whatever elaboration did not fold. */
  ghost predicate Reissued(sc: Scope, ds: seq<Decl>, r: set<string>) {
    if HasSeed(ds) then exists f: set<string> :: Least(ds, f) && r == f + Unfolded(sc, ds)
    else r == {}
  }

  /** The declarations with a name in `r`, in declaration order. */
  function Emitted(ds: seq<Decl>, r: set<string>): seq<Decl> {
    if ds == [] then [] else (if ds[0].name in r then [ds[0]] else []) + Emitted(ds[1..], r)
  }

  lemma {:induction false} EmittedAppend(ds: seq<Decl>, d: Decl, r: set<string>)
    ensures Emitted(ds + [d], r) == Emitted(ds, r) + if d.name in r then [d] else []
  {
    if ds != [] {
      EmittedAppend(ds[1..], d, r);
      assert (ds + [d])[1..] == ds[1..] + [d];
    }
  }

  function FlatName(sc: Scope, n: string): string {
    if sc.path == "" then n else sc.path + "." + n
  }

  function FlatNames(sc: Scope, ds: seq<Decl>): set<string> {
    set k | 0 <= k < |ds| :: FlatName(sc, ds[k].name)
  }

  lemma FlatNamesAppend(sc: Scope, ds: seq<Decl>, d: Decl)
    ensures FlatNames(sc, ds + [d]) == FlatNames(sc, ds) + {FlatName(sc, d.name)}
  {
    var all := ds + [d];
    assert all[|ds|] == d;
    assert forall k :: 0 <= k < |ds| ==> all[k] == ds[k];
  }

  /** The names that elaboration did not fold join. */
  method AddUnfolded(sc: Scope, ds: seq<Decl>, was: seq<string>) returns (reissue: seq<string>)
    ensures Elems(reissue) == Elems(was) + Unfolded(sc, ds)
  {
    reissue := was;
    for i := 0 to |ds|
      invariant Elems(reissue) == Elems(was) + Unfolded(sc, ds[..i])
    {
      assert ds[..i + 1] == ds[..i] + [ds[i]];
      UnfoldedAppend(sc, ds[..i], ds[i]);
      if !Folds(sc, ds[i].init) && ds[i].name !in reissue {
        Pushed(reissue, ds[i].name);
        reissue := reissue + [ds[i].name];
      }
    }
    assert ds[..|ds|] == ds;
  }

  /** The assignments to run at time 0, in order, and the flat names they replace. */
  method Reissue(sc: Scope, ds: seq<Decl>) returns (out: seq<Decl>, replaced: set<string>, ghost r: set<string>)
    ensures Reissued(sc, ds, r)
    ensures out == Emitted(ds, r) && replaced == FlatNames(sc, out)
  {
    out, replaced, r := [], {}, {};
    var seeds := Seeds(ds);
    if seeds == [] {
      assert forall k :: 0 <= k < |ds| && Seed(ds[k]) ==> ds[k].name in seeds;
      NothingEmitted(ds);
      return;
    }
    assert seeds[0] in seeds;
    var reissue := Fixpoint(ds);
    ghost var f := Elems(reissue);
    reissue := AddUnfolded(sc, ds, reissue);
    r := Elems(reissue);
    assert Reissued(sc, ds, r) by {
      assert Least(ds, f) && r == f + Unfolded(sc, ds);
    }
    hide Unfolded, Least;
    for i := 0 to |ds|
      invariant out == Emitted(ds[..i], r)
      invariant replaced == FlatNames(sc, out)
    {
      assert ds[..i + 1] == ds[..i] + [ds[i]];
      EmittedAppend(ds[..i], ds[i], r);
      if !CallsSimtime(ds[i].init) && ds[i].name !in reissue {
        continue;
      }
      assert ds[i].name in r;
      FlatNamesAppend(sc, out, ds[i]);
      replaced := replaced + {FlatName(sc, ds[i].name)};
      out := out + [ds[i]];
    }
    assert ds[..|ds|] == ds;
  }

  lemma {:induction false} NothingEmitted(ds: seq<Decl>)
    ensures Emitted(ds, {}) == []
  {
    if ds != [] {
      NothingEmitted(ds[1..]);
    }
  }

  lemma UnfoldedAppend(sc: Scope, ds: seq<Decl>, d: Decl)
    ensures Unfolded(sc, ds + [d]) == Unfolded(sc, ds) + if Folds(sc, d.init) then {} else {d.name}
  {
    var all := ds + [d];
    assert all[|ds|] == d;
    assert forall k :: 0 <= k < |ds| ==> all[k] == ds[k];
  }

  // ---------------------------------------------------------------- what is left out

  ghost predicate SeedsIn(ds: seq<Decl>, r: set<string>) {
    forall k :: 0 <= k < |ds| && Seed(ds[k]) ==> ds[k].name in r
  }

  lemma ReadsUnion(e: Expr, r: set<string>, t: set<string>)
    ensures ReadsAny(e, r + t) <==> ReadsAny(e, r) || ReadsAny(e, t)
  {
    if ReadsAny(e, r + t) {
      var n :| n in BareReads(e) && n in r + t;
      assert n in r || n in t;
    }
    if ReadsAny(e, r) {
      ReadsMore(e, r, r + t);
    }
    if ReadsAny(e, t) {
      ReadsMore(e, t, r + t);
    }
  }

  /** What is left out was folded, and is no seed; all that runs again is declared here. */
  lemma LeftOut(sc: Scope, ds: seq<Decl>, r: set<string>)
    requires HasSeed(ds) && Reissued(sc, ds, r)
    ensures forall k :: 0 <= k < |ds| && ds[k].name !in r ==> Folds(sc, ds[k].init)
    ensures SeedsIn(ds, r) && r <= NamesOf(ds)
  {
    var f: set<string> :| Least(ds, f) && r == f + Unfolded(sc, ds);
    assert ClosedUnder(ds, NamesOf(ds));
  }
}
