/** What running static initializers computes, and why running only the re-issued ones is enough
    where those that are left out are kept apart from them (IEEE 1800-2017 section 6.21). */
module InitRuns {
  import opened Results
  import opened StaticInit

  // ---------------------------------------------------------------- what an initializer computes

  type Store = map<Path, int>

  /** What names stand for: the variable that a path of several names is, or is a part of; the
      arguments that an operator or a call assigns; and the variables that the body of a
      subroutine reads, and those it assigns. */
  datatype Names = Names(
    base: (bool, Path) -> Path,
    out: (string, nat) -> bool,
    seen: string -> set<Path>,
    sets: string -> set<Path>)

  /** The variable that an identifier reads: the struct member `s.P` reads `s` and takes a part. */
  function Base(names: Names, rooted: bool, path: Path): Path {
    if Bare(rooted, path) then path else names.base(rooted, path)
  }

  /** The simulator's side of evaluation: the parts of variables, operators, operators that may
      stop after their left operand, the branch a condition selects (none when it is unknown,
      and then both are evaluated), simulation-time system functions and user subroutines. The
      last two also read and change the simulation state (a random stream, a file, the time).
      `out` is what an operator or call stores into a variable that is one of its assigned
      arguments, and `body` what a subroutine stores into a variable it assigns; either may
      leave the variable as it was. The last number given to them is its old value. */
  datatype Semantics = Semantics(
    names: Names,
    part: (bool, Path, int, seq<int>) -> int,
    op: (string, seq<int>) -> int,
    stop: (string, int) -> Option<int>,
    test: int -> Option<bool>,
    sys: (string, seq<int>, int) -> (int, int),
    user: (string, seq<int>, Store, int) -> (int, int),
    out: (string, seq<int>, int, Path, int) -> Option<int>,
    body: (string, seq<int>, Store, int, Path, int) -> Option<int>)

  function Look(s: Store, p: Path): int {
    if p in s then s[p] else 0
  }

  function Restrict(s: Store, ps: set<Path>): Store {
    map p | p in ps && p in s :: s[p]
  }

  /** `s` with the variables `ps` set to what `new` says. */
  function Put(s: Store, ps: set<Path>, new': (Path, int) -> Option<int>): Store {
    map p | p in s.Keys + ps && (p in s || new'(p, 0).Some?) ::
      if p in ps && new'(p, Look(s, p)).Some? then new'(p, Look(s, p)).value else Look(s, p)
  }

  function Tag(e: Expr): string {
    match e
    case Unary(op, _) => op
    case Binary(op, _, _) => op
    case Conditional(_, _, _) => "?:"
    case MemberAccess(_, member) => "." + member
    case Concatenation(_) => "{}"
    case Index(_, _) => "[]"
    case Slice(_, _, _) => "[:]"
    case SystemCall(name, _) => name
    case Call(name, _) => name
    case _ => "()"
  }

  /** The variables that an assignment to `e` stores into. */
  function Targets(names: Names, e: Expr): set<Path> {
    match e
    case Ident(rooted, path, _) => {Base(names, rooted, path)}
    case Paren(x) => Targets(names, x)
    case MemberAccess(x, _) => Targets(names, x)
    case Index(x, _) => Targets(names, x)
    case Slice(x, _, _) => Targets(names, x)
    case Concatenation(xs) => set k, p | 0 <= k < |xs| && p in Targets(names, xs[k]) :: p
    case Call(_, xs) => set k, p | 0 <= k < |xs| && p in Targets(names, xs[k]) :: p
    case _ => {}
  }

  /** The variables that `e` itself may assign through its operands: those of `$urandom(seed)`
      and `n++`, not those of `n + 1`. */
  function Outs(names: Names, e: Expr): set<Path> {
    if e.Unary? || e.SystemCall? || e.Call? then
      set k: nat, p | k < |Parts(e)| && names.out(Tag(e), k) && p in Targets(names, Parts(e)[k]) :: p
    else {}
  }

  datatype Outcome = Outcome(value: int, store: Store, world: int)

  datatype Values = Values(list: seq<int>, store: Store, world: int)

  /** The value of `e`, and the variables and the simulation state after evaluating it. */
  function Eval(sem: Semantics, e: Expr, s: Store, w: int): Outcome
    decreases e, |Parts(e)| + 1
  {
    match e
    case Literal(v) => Outcome(v, s, w)
    case Binary(op, l, r) =>
      var a := Eval(sem, l, s, w);
      if sem.stop(op, a.value).Some? then Outcome(sem.stop(op, a.value).value, a.store, a.world) else
        var b := Eval(sem, r, a.store, a.world);
        Outcome(sem.op(op, [a.value, b.value]), b.store, b.world)
    case Conditional(c, t, f) =>
      var a := Eval(sem, c, s, w);
      if sem.test(a.value).Some? then Eval(sem, if sem.test(a.value).value then t else f, a.store, a.world) else
        var x := Eval(sem, t, a.store, a.world);
        var y := Eval(sem, f, x.store, x.world);
        Outcome(sem.op("?:", [a.value, x.value, y.value]), y.store, y.world)
    case _ => Finish(sem, e, EvalFrom(sem, e, 0, s, w))
  }

  /** The values of the parts of `e` from number `k` on. */
  function EvalFrom(sem: Semantics, e: Expr, k: nat, s: Store, w: int): Values
    requires k <= |Parts(e)|
    decreases e, |Parts(e)| - k
  {
    if k == |Parts(e)| then Values([], s, w) else
      var o := Eval(sem, Parts(e)[k], s, w);
      var rest := EvalFrom(sem, e, k + 1, o.store, o.world);
      Values([o.value] + rest.list, rest.store, rest.world)
  }

  /** `e` when its parts have been evaluated. */
  function Finish(sem: Semantics, e: Expr, vs: Values): Outcome {
    var (value, world) := Result(sem, e, vs);
    Outcome(value, Stored(sem, e, vs), world)
  }

  function Result(sem: Semantics, e: Expr, vs: Values): (int, int) {
    if e.Ident? then
      var v := Look(vs.store, Base(sem.names, e.rooted, e.path));
      (if Bare(e.rooted, e.path) && vs.list == [] then v else sem.part(e.rooted, e.path, v, vs.list), vs.world)
    else if e.Call? then sem.user(e.name, vs.list, Restrict(vs.store, sem.names.seen(e.name)), vs.world)
    else if e.SystemCall? && SimtimeName(e.name) then sem.sys(e.name, vs.list, vs.world)
    else (sem.op(Tag(e), vs.list), vs.world)
  }

  /** The simulation state as `e` itself sees it: operators do not. */
  function Heeded(e: Expr, w: int): int {
    if e.Call? || (e.SystemCall? && SimtimeName(e.name)) then w else 0
  }

  function Stored(sem: Semantics, e: Expr, vs: Values): Store {
    var s := Put(vs.store, Outs(sem.names, e), (p, was) => sem.out(Tag(e), vs.list, Heeded(e, vs.world), p, was));
    if e.Call? then
      var seen := Restrict(vs.store, sem.names.seen(e.name));
      Put(s, sem.names.sets(e.name), (p, was) => sem.body(e.name, vs.list, seen, vs.world, p, was))
    else s
  }

  /** The variables that the identifiers of `e` read. */
  function Mentions(names: Names, e: Expr): set<Path> {
    (if e.Ident? then {Base(names, e.rooted, e.path)} else {})
    + set k, p | 0 <= k < |Parts(e)| && p in Mentions(names, Parts(e)[k]) :: p
  }

  /** The variables that the subroutines called in `e` read. */
  function SeenBy(names: Names, e: Expr): set<Path> {
    (if e.Call? then names.seen(e.name) else {})
    + set k, p | 0 <= k < |Parts(e)| && p in SeenBy(names, Parts(e)[k]) :: p
  }

  /** Every variable that evaluating `e` may look at. */
  function Reads(names: Names, e: Expr): set<Path> {
    Mentions(names, e) + SeenBy(names, e)
  }

  /** Every variable that evaluating `e` may assign. */
  function Writes(names: Names, e: Expr): set<Path> {
    Outs(names, e) + (if e.Call? then names.sets(e.name) else {})
    + set k, p | 0 <= k < |Parts(e)| && p in Writes(names, Parts(e)[k]) :: p
  }

  lemma {:induction false} TargetsMentioned(names: Names, e: Expr)
    ensures Targets(names, e) <= Mentions(names, e)
    decreases e, 1
  {
    match e
    case Paren(x) => TargetsMentioned(names, x); assert Parts(e)[0] == x;
    case MemberAccess(x, _) => TargetsMentioned(names, x); assert Parts(e)[0] == x;
    case Index(x, _) => TargetsMentioned(names, x); assert Parts(e)[0] == x;
    case Slice(x, _, _) => TargetsMentioned(names, x); assert Parts(e)[0] == x;
    case Concatenation(xs) => PartTargetsMentioned(names, e); assert Parts(e) == xs;
    case Call(_, xs) => PartTargetsMentioned(names, e); assert Parts(e) == xs;
    case _ =>
  }

  lemma {:induction false} PartTargetsMentioned(names: Names, e: Expr)
    ensures forall k, p :: 0 <= k < |Parts(e)| && p in Targets(names, Parts(e)[k]) ==> p in Mentions(names, e)
    decreases e, 0
  {
    forall k | 0 <= k < |Parts(e)| ensures Targets(names, Parts(e)[k]) <= Mentions(names, Parts(e)[k]) {
      TargetsMentioned(names, Parts(e)[k]);
    }
  }

  /** Whatever is assigned as an operand is read as one. */
  lemma OutsMentioned(names: Names, e: Expr)
    ensures Outs(names, e) <= Mentions(names, e)
  {
    forall k | 0 <= k < |Parts(e)| ensures Targets(names, Parts(e)[k]) <= Mentions(names, Parts(e)[k]) {
      TargetsMentioned(names, Parts(e)[k]);
    }
  }

  /** `s` and `t` hold the same variables with the same values, apart from `but`. */
  ghost predicate SameBut(s: Store, t: Store, but: set<Path>) {
    forall p :: p !in but ==> (p in s <==> p in t) && (p in s ==> s[p] == t[p])
  }

  lemma PutSame(s: Store, t: Store, ps: set<Path>, f: (Path, int) -> Option<int>, g: (Path, int) -> Option<int>, but: set<Path>)
    requires SameBut(s, t, but) && forall p, was :: f(p, was) == g(p, was)
    ensures SameBut(Put(s, ps, f), Put(t, ps, g), but)
  {
    forall p | p !in but ensures Look(s, p) == Look(t, p) {
    }
  }

  lemma PutWithin(s: Store, ps: set<Path>, f: (Path, int) -> Option<int>)
    ensures SameBut(Put(s, ps, f), s, ps)
  {
  }

  lemma ReadsParts(names: Names, e: Expr, k: nat)
    requires k < |Parts(e)|
    ensures Reads(names, Parts(e)[k]) <= Reads(names, e)
    ensures Writes(names, Parts(e)[k]) <= Writes(names, e)
  {
  }

  lemma FinishSame(sem: Semantics, e: Expr, v: Values, u: Values, but: set<Path>)
    requires v.list == u.list && v.world == u.world && SameBut(v.store, u.store, but)
    requires Reads(sem.names, e) !! but
    ensures Result(sem, e, v) == Result(sem, e, u)
    ensures SameBut(Stored(sem, e, v), Stored(sem, e, u), but)
  {
    hide Put;
    var f := (p, was) => sem.out(Tag(e), v.list, Heeded(e, v.world), p, was);
    var g := (p, was) => sem.out(Tag(e), u.list, Heeded(e, u.world), p, was);
    PutSame(v.store, u.store, Outs(sem.names, e), f, g, but);
    if e.Call? {
      assert Restrict(v.store, sem.names.seen(e.name)) == Restrict(u.store, sem.names.seen(e.name));
      var seen := Restrict(v.store, sem.names.seen(e.name));
      var h := (p, was) => sem.body(e.name, v.list, seen, v.world, p, was);
      PutSame(Put(v.store, Outs(sem.names, e), f), Put(u.store, Outs(sem.names, e), g), sem.names.sets(e.name), h, h, but);
    }
  }

  /** Evaluation depends only on the variables in `Reads`: where the others differ, the value and
      the simulation state are the same, and the others are all that differs afterwards. */
  lemma {:induction false} EvalLocal(sem: Semantics, e: Expr, s: Store, t: Store, but: set<Path>, w: int)
    requires SameBut(s, t, but) && Reads(sem.names, e) !! but
    ensures var a, b := Eval(sem, e, s, w), Eval(sem, e, t, w);
      a.value == b.value && a.world == b.world && SameBut(a.store, b.store, but)
    decreases e, |Parts(e)| + 1
  {
    hide Reads, SameBut, Finish, Result, Stored;
    forall k | 0 <= k < |Parts(e)| ensures Reads(sem.names, Parts(e)[k]) !! but {
      ReadsParts(sem.names, e, k);
    }
    if e.Binary? {
      assert Parts(e)[0] == e.left && Parts(e)[1] == e.right;
      var a, b := Eval(sem, e.left, s, w), Eval(sem, e.left, t, w);
      EvalLocal(sem, e.left, s, t, but, w);
      EvalLocal(sem, e.right, a.store, b.store, but, a.world);
    } else if e.Conditional? {
      ConditionalLocal(sem, e, s, t, but, w);
    } else if !e.Literal? {
      EvalFromLocal(sem, e, 0, s, t, but, w);
      FinishLocal(sem, e, s, t, but, w);
    }
  }

  lemma FinishLocal(sem: Semantics, e: Expr, s: Store, t: Store, but: set<Path>, w: int)
    requires !e.Literal? && !e.Binary? && !e.Conditional? && Reads(sem.names, e) !! but
    requires var v, u := EvalFrom(sem, e, 0, s, w), EvalFrom(sem, e, 0, t, w);
      v.list == u.list && v.world == u.world && SameBut(v.store, u.store, but)
    ensures var a, b := Eval(sem, e, s, w), Eval(sem, e, t, w);
      a.value == b.value && a.world == b.world && SameBut(a.store, b.store, but)
  {
    hide Reads, SameBut, Result, Stored, EvalFrom;
    FinishSame(sem, e, EvalFrom(sem, e, 0, s, w), EvalFrom(sem, e, 0, t, w), but);
  }

  lemma {:induction false} ConditionalLocal(sem: Semantics, e: Expr, s: Store, t: Store, but: set<Path>, w: int)
    requires e.Conditional? && SameBut(s, t, but)
    requires forall k :: 0 <= k < |Parts(e)| ==> Reads(sem.names, Parts(e)[k]) !! but
    ensures var a, b := Eval(sem, e, s, w), Eval(sem, e, t, w);
      a.value == b.value && a.world == b.world && SameBut(a.store, b.store, but)
    decreases e, |Parts(e)|
  {
    hide Reads, SameBut;
    assert Parts(e)[0] == e.condition && Parts(e)[1] == e.thenExpr && Parts(e)[2] == e.elseExpr;
    var a, b := Eval(sem, e.condition, s, w), Eval(sem, e.condition, t, w);
    EvalLocal(sem, e.condition, s, t, but, w);
    EvalLocal(sem, e.thenExpr, a.store, b.store, but, a.world);
    EvalLocal(sem, e.elseExpr, a.store, b.store, but, a.world);
    var x, y := Eval(sem, e.thenExpr, a.store, a.world), Eval(sem, e.thenExpr, b.store, b.world);
    EvalLocal(sem, e.elseExpr, x.store, y.store, but, x.world);
  }

  lemma {:induction false} EvalFromLocal(sem: Semantics, e: Expr, k: nat, s: Store, t: Store, but: set<Path>, w: int)
    requires k <= |Parts(e)| && SameBut(s, t, but)
    requires forall i :: 0 <= i < |Parts(e)| ==> Reads(sem.names, Parts(e)[i]) !! but
    ensures var v, u := EvalFrom(sem, e, k, s, w), EvalFrom(sem, e, k, t, w);
      v.list == u.list && v.world == u.world && SameBut(v.store, u.store, but)
    decreases e, |Parts(e)| - k
  {
    hide Reads, SameBut;
    if k < |Parts(e)| {
      var a, b := Eval(sem, Parts(e)[k], s, w), Eval(sem, Parts(e)[k], t, w);
      EvalLocal(sem, Parts(e)[k], s, t, but, w);
      EvalFromLocal(sem, e, k + 1, a.store, b.store, but, a.world);
    }
  }

  lemma SameThen(s: Store, t: Store, u: Store, ps: set<Path>)
    requires SameBut(s, t, ps) && SameBut(t, u, ps)
    ensures SameBut(s, u, ps)
  {
  }

  /** Evaluation changes only the variables in `Writes`. */
  lemma {:induction false} EvalWrites(sem: Semantics, e: Expr, s: Store, w: int, ps: set<Path>)
    requires Writes(sem.names, e) <= ps
    ensures SameBut(Eval(sem, e, s, w).store, s, ps)
    decreases e, |Parts(e)| + 1
  {
    hide SameBut, Finish, Writes;
    forall k | 0 <= k < |Parts(e)| ensures Writes(sem.names, Parts(e)[k]) <= ps {
      ReadsParts(sem.names, e, k);
    }
    SameAlways(s, ps);
    if e.Binary? {
      assert Parts(e)[0] == e.left && Parts(e)[1] == e.right;
      var a := Eval(sem, e.left, s, w);
      EvalWrites(sem, e.left, s, w, ps);
      EvalWrites(sem, e.right, a.store, a.world, ps);
      SameThen(Eval(sem, e.right, a.store, a.world).store, a.store, s, ps);
    } else if e.Conditional? {
      ConditionalWrites(sem, e, s, w, ps);
    } else if !e.Literal? {
      var vs := EvalFrom(sem, e, 0, s, w);
      EvalFromWrites(sem, e, 0, s, w, ps);
      FinishWrites(sem, e, vs, ps);
      SameThen(Finish(sem, e, vs).store, vs.store, s, ps);
    }
  }

  lemma SameAlways(s: Store, ps: set<Path>)
    ensures SameBut(s, s, ps)
  {
  }

  lemma FinishWrites(sem: Semantics, e: Expr, vs: Values, ps: set<Path>)
    requires Writes(sem.names, e) <= ps
    ensures SameBut(Finish(sem, e, vs).store, vs.store, ps)
  {
    hide Put, Result;
    var f := (p, was) => sem.out(Tag(e), vs.list, Heeded(e, vs.world), p, was);
    var s := Put(vs.store, Outs(sem.names, e), f);
    PutWithin(vs.store, Outs(sem.names, e), f);
    if e.Call? {
      var seen := Restrict(vs.store, sem.names.seen(e.name));
      PutWithin(s, sem.names.sets(e.name), (p, was) => sem.body(e.name, vs.list, seen, vs.world, p, was));
    }
  }

  lemma {:induction false} ConditionalWrites(sem: Semantics, e: Expr, s: Store, w: int, ps: set<Path>)
    requires e.Conditional? && forall k :: 0 <= k < |Parts(e)| ==> Writes(sem.names, Parts(e)[k]) <= ps
    ensures SameBut(Eval(sem, e, s, w).store, s, ps)
    decreases e, |Parts(e)|
  {
    hide SameBut, Writes;
    assert Parts(e)[0] == e.condition && Parts(e)[1] == e.thenExpr && Parts(e)[2] == e.elseExpr;
    var a := Eval(sem, e.condition, s, w);
    EvalWrites(sem, e.condition, s, w, ps);
    var x := Eval(sem, e.thenExpr, a.store, a.world);
    EvalWrites(sem, e.thenExpr, a.store, a.world, ps);
    SameThen(x.store, a.store, s, ps);
    var y := Eval(sem, e.elseExpr, a.store, a.world);
    EvalWrites(sem, e.elseExpr, a.store, a.world, ps);
    SameThen(y.store, a.store, s, ps);
    EvalWrites(sem, e.elseExpr, x.store, x.world, ps);
    SameThen(Eval(sem, e.elseExpr, x.store, x.world).store, x.store, s, ps);
  }

  lemma {:induction false} EvalFromWrites(sem: Semantics, e: Expr, k: nat, s: Store, w: int, ps: set<Path>)
    requires k <= |Parts(e)| && forall i :: 0 <= i < |Parts(e)| ==> Writes(sem.names, Parts(e)[i]) <= ps
    ensures SameBut(EvalFrom(sem, e, k, s, w).store, s, ps)
    decreases e, |Parts(e)| - k
  {
    hide SameBut, Writes;
    if k < |Parts(e)| {
      var o := Eval(sem, Parts(e)[k], s, w);
      EvalWrites(sem, Parts(e)[k], s, w, ps);
      EvalFromWrites(sem, e, k + 1, o.store, o.world, ps);
      SameThen(EvalFrom(sem, e, k + 1, o.store, o.world).store, o.store, s, ps);
    } else {
      SameAlways(s, ps);
    }
  }

  /** Nothing in `e` runs at simulation time. */
  predicate Timeless(e: Expr) {
    !CallsSimtime(e) && !HasCall(e)
  }

  lemma TimelessParts(e: Expr, k: nat)
    requires Timeless(e) && k < |Parts(e)|
    ensures Timeless(Parts(e)[k])
  {
  }

  lemma FinishTimeless(sem: Semantics, e: Expr, vs: Values, w: int)
    requires Timeless(e)
    ensures Finish(sem, e, vs.(world := w)) == Finish(sem, e, vs).(world := w)
  {
    hide Put;
    assert !e.Call? && !(e.SystemCall? && SimtimeName(e.name));
    assert Heeded(e, vs.world) == Heeded(e, w);
    var us := vs.(world := w);
    var f := (p, was) => sem.out(Tag(e), vs.list, Heeded(e, vs.world), p, was);
    var g := (p, was) => sem.out(Tag(e), us.list, Heeded(e, us.world), p, was);
    forall p, was ensures f(p, was) == g(p, was) {
    }
    PutAlike(vs.store, Outs(sem.names, e), f, g);
  }

  lemma PutAlike(s: Store, ps: set<Path>, f: (Path, int) -> Option<int>, g: (Path, int) -> Option<int>)
    requires forall p, was :: f(p, was) == g(p, was)
    ensures Put(s, ps, f) == Put(s, ps, g)
  {
  }

  /** Without simulation-time and user calls, the simulation state neither matters nor changes. */
  lemma {:induction false} EvalTimeless(sem: Semantics, e: Expr, s: Store, w: int, w': int)
    requires Timeless(e)
    ensures Eval(sem, e, s, w) == Eval(sem, e, s, w').(world := w)
    decreases e, |Parts(e)| + 1
  {
    hide Timeless, Finish;
    forall k | 0 <= k < |Parts(e)| ensures Timeless(Parts(e)[k]) {
      TimelessParts(e, k);
    }
    if e.Binary? {
      assert Parts(e)[0] == e.left && Parts(e)[1] == e.right;
      var a, b := Eval(sem, e.left, s, w), Eval(sem, e.left, s, w');
      EvalTimeless(sem, e.left, s, w, w');
      EvalTimeless(sem, e.left, s, w', w');
      EvalTimeless(sem, e.right, a.store, a.world, b.world);
    } else if e.Conditional? {
      ConditionalTimeless(sem, e, s, w, w');
    } else if !e.Literal? {
      EvalFromTimeless(sem, e, 0, s, w, w');
      EvalFromTimeless(sem, e, 0, s, w', w');
      FinishTimeless(sem, e, EvalFrom(sem, e, 0, s, w'), w);
    }
  }

  lemma {:induction false} ConditionalTimeless(sem: Semantics, e: Expr, s: Store, w: int, w': int)
    requires e.Conditional? && forall k :: 0 <= k < |Parts(e)| ==> Timeless(Parts(e)[k])
    ensures Eval(sem, e, s, w) == Eval(sem, e, s, w').(world := w)
    decreases e, |Parts(e)|
  {
    hide Timeless;
    assert Parts(e)[0] == e.condition && Parts(e)[1] == e.thenExpr && Parts(e)[2] == e.elseExpr;
    EvalTimeless(sem, e.condition, s, w, w');
    EvalTimeless(sem, e.condition, s, w', w');
    var t := Eval(sem, e.condition, s, w).store;
    EvalTimeless(sem, e.thenExpr, t, w, w');
    EvalTimeless(sem, e.thenExpr, t, w', w');
    EvalTimeless(sem, e.elseExpr, t, w, w');
    EvalTimeless(sem, e.elseExpr, Eval(sem, e.thenExpr, t, w).store, w, w');
  }

  lemma {:induction false} EvalFromTimeless(sem: Semantics, e: Expr, k: nat, s: Store, w: int, w': int)
    requires k <= |Parts(e)|
    requires forall i :: 0 <= i < |Parts(e)| ==> Timeless(Parts(e)[i])
    ensures EvalFrom(sem, e, k, s, w) == EvalFrom(sem, e, k, s, w').(world := w)
    decreases e, |Parts(e)| - k
  {
    hide Timeless;
    if k < |Parts(e)| {
      var o := Eval(sem, Parts(e)[k], s, w);
      EvalTimeless(sem, Parts(e)[k], s, w, w');
      EvalTimeless(sem, Parts(e)[k], s, w', w');
      EvalFromTimeless(sem, e, k + 1, o.store, w, w');
    }
  }

  /** Nothing in `e` runs at simulation time, and nothing in it is assigned. */
  predicate Quiet(names: Names, e: Expr) {
    Timeless(e) && Writes(names, e) == {}
  }

  /** Then evaluating it changes nothing, and the simulation state does not matter. */
  lemma EvalQuiet(sem: Semantics, e: Expr, s: Store, w: int, w': int)
    requires Quiet(sem.names, e)
    ensures Eval(sem, e, s, w) == Outcome(Eval(sem, e, s, w').value, s, w)
  {
    hide Eval, Writes, Timeless;
    EvalTimeless(sem, e, s, w, w');
    EvalTimeless(sem, e, s, w, w);
    EvalWrites(sem, e, s, w, {});
  }

  // ---------------------------------------------------------------- running them is enough

  function Run(sem: Semantics, ds: seq<Decl>, s: Store, w: int): (Store, int) {
    if ds == [] then (s, w) else
      var o := Eval(sem, ds[0].init, s, w);
      Run(sem, ds[1..], o.store[[ds[0].name] := o.value], o.world)
  }

  /** The store keys of the declarations from number `k` on. */
  function KeysFrom(ds: seq<Decl>, k: nat): set<Path> {
    set i | k <= i < |ds| :: [ds[i].name]
  }

  /** Every initializer mentions only variables declared before its own. */
  predicate MentionsEarlier(names: Names, ds: seq<Decl>) {
    forall k :: 0 <= k < |ds| ==> Mentions(names, ds[k].init) !! KeysFrom(ds, k)
  }

  /** The elaborated value of a folded initializer is its value over the elaborated variables. */
  ghost predicate FoldedRight(sem: Semantics, ds: seq<Decl>, r: set<string>, e: Store, w: int) {
    forall k :: 0 <= k < |ds| && ds[k].name !in r ==> [ds[k].name] in e && e[[ds[k].name]] == Eval(sem, ds[k].init, e, w).value
  }

  function KeysOf(r: set<string>): set<Path> {
    set n | n in r :: [n]
  }

  lemma KeyOfName(r: set<string>, n: string)
    ensures [n] in KeysOf(r) <==> n in r
  {
    forall m | m in r && [m] == [n] ensures m == n {
      assert [m][0] == [n][0];
    }
  }

  /** The variables that run again, and those that the first `k` initializers running again may
      assign. */
  function Dirty(names: Names, ds: seq<Decl>, r: set<string>, k: nat): set<Path>
    requires k <= |ds|
  {
    if k == 0 then KeysOf(r)
    else Dirty(names, ds, r, k - 1) + if ds[k - 1].name in r then Writes(names, ds[k - 1].init) else {}
  }

  /** An initializer that is left out calls no subroutine and assigns nothing, and neither what
      it reads nor its own variable is set before it by what runs again. */
  predicate LeftApart(names: Names, ds: seq<Decl>, r: set<string>, k: nat)
    requires k < |ds|
  {
    !HasCall(ds[k].init) && Writes(names, ds[k].init) == {}
    && Mentions(names, ds[k].init) + {[ds[k].name]} !! Dirty(names, ds, r, k)
  }

  /** That holds of all that is left out, and what runs again calls no subroutine that reads a
      variable declared only later. */
  predicate KeptApart(names: Names, ds: seq<Decl>, r: set<string>) {
    forall k :: 0 <= k < |ds| ==>
      if ds[k].name in r then SeenBy(names, ds[k].init) !! KeysFrom(ds, k) else LeftApart(names, ds, r, k)
  }

  lemma Tail(ds: seq<Decl>, k: nat)
    requires k < |ds|
    ensures ds[k..][0] == ds[k] && ds[k..][1..] == ds[k + 1..]
  {
  }

  lemma {:induction false} DirtyGrows(names: Names, ds: seq<Decl>, r: set<string>, k: nat)
    requires k <= |ds|
    ensures KeysOf(r) <= Dirty(names, ds, r, k)
  {
    if k > 0 { DirtyGrows(names, ds, r, k - 1); }
  }

  lemma {:induction false} NoCallNothingSeen(names: Names, e: Expr, p: Path)
    requires !HasCall(e)
    ensures p !in SeenBy(names, e)
  {
    if p in SeenBy(names, e) {
      var k :| 0 <= k < |Parts(e)| && p in SeenBy(names, Parts(e)[k]);
      NoCallNothingSeen(names, Parts(e)[k], p);
    }
  }

  /** A folded initializer: the full run stores what elaboration stored, and nothing else happens. */
  lemma FoldedStep(sem: Semantics, ds: seq<Decl>, r: set<string>, e: Store, w0: int, k: nat, f: Store, g: Store, w: int)
    requires k < |ds| && ds[k].name !in r && MentionsEarlier(sem.names, ds)
    requires SeedsIn(ds, r) && LeftApart(sem.names, ds, r, k) && FoldedRight(sem, ds, r, e, w0)
    requires SameBut(f, g, KeysFrom(ds, k)) && SameBut(g, e, Dirty(sem.names, ds, r, k))
    ensures [ds[k].name] in g && Eval(sem, ds[k].init, f, w) == Outcome(g[[ds[k].name]], f, w)
  {
    var init := ds[k].init;
    forall p ensures p !in SeenBy(sem.names, init) {
      NoCallNothingSeen(sem.names, init, p);
    }
    EvalLocal(sem, init, f, g, KeysFrom(ds, k), w);
    EvalLocal(sem, init, g, e, Dirty(sem.names, ds, r, k), w);
    EvalQuiet(sem, init, e, w, w0);
    EvalQuiet(sem, init, f, w, w);
  }

  lemma StoredBoth(ds: seq<Decl>, k: nat, f: Store, g: Store, v: int)
    requires k < |ds| && SameBut(f, g, KeysFrom(ds, k))
    ensures SameBut(f[[ds[k].name] := v], g[[ds[k].name] := v], KeysFrom(ds, k + 1))
    ensures [ds[k].name] in g && g[[ds[k].name]] == v ==> SameBut(f[[ds[k].name] := v], g, KeysFrom(ds, k + 1))
  {
    KeysStep(ds, k);
  }

  lemma KeysStep(ds: seq<Decl>, k: nat)
    requires k < |ds|
    ensures KeysFrom(ds, k) == KeysFrom(ds, k + 1) + {[ds[k].name]}
  {
  }

  /** An initializer that runs again does the same in both runs. */
  lemma AgainStep(sem: Semantics, ds: seq<Decl>, r: set<string>, e: Store, k: nat, f: Store, g: Store, w: int)
    requires k < |ds| && ds[k].name in r && MentionsEarlier(sem.names, ds)
    requires SeenBy(sem.names, ds[k].init) !! KeysFrom(ds, k)
    requires SameBut(f, g, KeysFrom(ds, k)) && SameBut(g, e, Dirty(sem.names, ds, r, k))
    ensures var a, b, key := Eval(sem, ds[k].init, f, w), Eval(sem, ds[k].init, g, w), [ds[k].name];
      && a.value == b.value && a.world == b.world
      && SameBut(a.store[key := a.value], b.store[key := a.value], KeysFrom(ds, k + 1))
      && SameBut(b.store[key := a.value], e, Dirty(sem.names, ds, r, k + 1))
  {
    hide Eval;
    var init, key := ds[k].init, [ds[k].name];
    var a, b := Eval(sem, init, f, w), Eval(sem, init, g, w);
    EvalLocal(sem, init, f, g, KeysFrom(ds, k), w);
    StoredBoth(ds, k, a.store, b.store, a.value);
    EvalWrites(sem, init, g, w, Writes(sem.names, init));
    DirtyGrows(sem.names, ds, r, k);
    KeyOfName(r, ds[k].name);
  }

  /** From declaration `k` on: `f` is the store of the full run and `g` of the emitted run. */
  lemma {:induction false} SameFrom(sem: Semantics, ds: seq<Decl>, r: set<string>, e: Store, w0: int, k: nat, f: Store, g: Store, w: int)
    requires k <= |ds| && MentionsEarlier(sem.names, ds)
    requires SeedsIn(ds, r) && KeptApart(sem.names, ds, r) && FoldedRight(sem, ds, r, e, w0)
    requires SameBut(f, g, KeysFrom(ds, k)) && SameBut(g, e, Dirty(sem.names, ds, r, k))
    ensures Run(sem, ds[k..], f, w) == Run(sem, Emitted(ds[k..], r), g, w)
    decreases |ds| - k
  {
    hide Eval, Run, MentionsEarlier, FoldedRight, SeedsIn, LeftApart, Emitted, SameBut;
    if k == |ds| {
      SameEverywhere(ds, f, g);
      assert ds[k..] == [] && Emitted(ds[k..], r) == [] by { EmittedNone(r); }
    } else {
      Tail(ds, k);
      var d := ds[k];
      assert ds[k..] == [d] + ds[k + 1..];
      EmittedOne(d, ds[k + 1..], r);
      if d.name in r {
        AgainStep(sem, ds, r, e, k, f, g, w);
        var a, b := Eval(sem, d.init, f, w), Eval(sem, d.init, g, w);
        RunOne(sem, d, ds[k + 1..], f, w);
        RunOne(sem, d, Emitted(ds[k + 1..], r), g, w);
        SameFrom(sem, ds, r, e, w0, k + 1, a.store[[d.name] := a.value], b.store[[d.name] := a.value], a.world);
      } else {
        FoldedStep(sem, ds, r, e, w0, k, f, g, w);
        StoredBoth(ds, k, f, g, g[[d.name]]);
        assert Dirty(sem.names, ds, r, k + 1) == Dirty(sem.names, ds, r, k);
        RunOne(sem, d, ds[k + 1..], f, w);
        SameFrom(sem, ds, r, e, w0, k + 1, f[[d.name] := g[[d.name]]], g, w);
      }
    }
  }

  lemma SameEverywhere(ds: seq<Decl>, f: Store, g: Store)
    requires SameBut(f, g, KeysFrom(ds, |ds|))
    ensures f == g
  {
    assert KeysFrom(ds, |ds|) == {};
  }

  lemma EmittedNone(r: set<string>)
    ensures Emitted([], r) == []
  {
  }

  lemma EmittedOne(d: Decl, ds: seq<Decl>, r: set<string>)
    ensures Emitted([d] + ds, r) == if d.name in r then [d] + Emitted(ds, r) else Emitted(ds, r)
  {
    assert ([d] + ds)[1..] == ds;
  }

  lemma RunOne(sem: Semantics, d: Decl, ds: seq<Decl>, s: Store, w: int)
    ensures var o := Eval(sem, d.init, s, w);
      Run(sem, [d] + ds, s, w) == Run(sem, ds, o.store[[d.name] := o.value], o.world)
  {
    assert ([d] + ds)[1..] == ds;
  }

  /** Running the emitted assignments over the elaborated variables ends in the same variables
      and the same simulation state as running every initializer in declaration order. */
  lemma EmittedIsEnough(sem: Semantics, ds: seq<Decl>, r: set<string>, initial: Store, elaborated: Store, w0: int, w: int)
    requires MentionsEarlier(sem.names, ds)
    requires SeedsIn(ds, r) && KeptApart(sem.names, ds, r) && FoldedRight(sem, ds, r, elaborated, w0)
    requires SameBut(initial, elaborated, KeysFrom(ds, 0))
    ensures Run(sem, ds, initial, w) == Run(sem, Emitted(ds, r), elaborated, w)
  {
    assert ds[0..] == ds;
    SameAlways(elaborated, Dirty(sem.names, ds, r, 0));
    SameFrom(sem, ds, r, elaborated, w0, 0, initial, elaborated, w);
  }

  // ---------------------------------------------------------------- when the set is large enough

  /** The variables read through a dotted or rooted name, which the fixpoint does not look at. */
  function PathReads(names: Names, e: Expr): set<Path> {
    (if e.Ident? && !Bare(e.rooted, e.path) then {Base(names, e.rooted, e.path)} else {})
    + set k, p | 0 <= k < |Parts(e)| && p in PathReads(names, Parts(e)[k]) :: p
  }

  lemma {:induction false} MentionsSplit(names: Names, e: Expr, n: string)
    ensures [n] in Mentions(names, e) <==> n in BareReads(e) || [n] in PathReads(names, e)
  {
    forall k | 0 <= k < |Parts(e)|
      ensures [n] in Mentions(names, Parts(e)[k]) <==> n in BareReads(Parts(e)[k]) || [n] in PathReads(names, Parts(e)[k])
    {
      MentionsSplit(names, Parts(e)[k], n);
    }
    if e.Ident? && Bare(e.rooted, e.path) {
      assert e.path == [e.path[0]] && [n][0] == n;
    }
  }

  /** An initializer that is left out reads no member of the set exactly when it reads none of
      the never-folded names, which joined after the fixpoint, and no member at all through a
      dotted or rooted name, which the fixpoint does not look at. */
  lemma ClosedWhen(sc: Scope, names: Names, ds: seq<Decl>, r: set<string>, k: nat)
    requires HasSeed(ds) && Reissued(sc, ds, r) && k < |ds| && ds[k].name !in r
    ensures Mentions(names, ds[k].init) !! KeysOf(r) <==>
      !ReadsAny(ds[k].init, Unfolded(sc, ds)) && PathReads(names, ds[k].init) !! KeysOf(r)
  {
    var e := ds[k].init;
    var f: set<string> :| Least(ds, f) && r == f + Unfolded(sc, ds);
    ReadsUnion(e, f, Unfolded(sc, ds));
    forall n ensures [n] in Mentions(names, e) <==> n in BareReads(e) || [n] in PathReads(names, e) {
      MentionsSplit(names, e, n);
    }
    if Mentions(names, e) !! KeysOf(r) {
      forall n | n in r ensures n !in BareReads(e) {
        KeyOfName(r, n);
      }
    }
  }

  /** The set the loop computes is enough where what it leaves out is apart from it: the emitted
      assignments and every initializer in order end in the same variables and the same
      simulation state. */
  lemma ReissueIsEnough(sc: Scope, sem: Semantics, ds: seq<Decl>, r: set<string>, initial: Store, elaborated: Store, w0: int, w: int)
    requires HasSeed(ds) && Reissued(sc, ds, r)
    requires MentionsEarlier(sem.names, ds) && KeptApart(sem.names, ds, r)
    requires FoldedRight(sem, ds, r, elaborated, w0)
    requires SameBut(initial, elaborated, KeysFrom(ds, 0))
    ensures Run(sem, ds, initial, w) == Run(sem, Emitted(ds, r), elaborated, w)
  {
    LeftOut(sc, ds, r);
    EmittedIsEnough(sem, ds, r, initial, elaborated, w0, w);
  }

  /** `e` is folded without the rules that accept a member access or a path for the name of its
      last part, reads no declared variable through a dotted or rooted name, and assigns nothing. */
  predicate FoldsPlainly(sc: Scope, names: Names, declared: set<string>, e: Expr) {
    Folds(sc, e) && !(e.MemberAccess? && !Folds(sc, e.expr)) && Outs(names, e) == {}
    && (e.Ident? && !Bare(e.rooted, e.path) ==> Base(names, e.rooted, e.path) !in KeysOf(declared))
    && forall k :: 0 <= k < |Parts(e)| ==> FoldsPlainly(sc, names, declared, Parts(e)[k])
  }

  lemma {:induction false} PlainReadsParameters(sc: Scope, names: Names, declared: set<string>, e: Expr)
    requires FoldsPlainly(sc, names, declared, e) && forall n :: n in declared ==> !sc.HasParam(n)
    ensures !HasCall(e) && Writes(names, e) == {} && Mentions(names, e) !! KeysOf(declared)
  {
    forall k | 0 <= k < |Parts(e)|
      ensures !HasCall(Parts(e)[k]) && Writes(names, Parts(e)[k]) == {} && Mentions(names, Parts(e)[k]) !! KeysOf(declared)
    {
      PlainReadsParameters(sc, names, declared, Parts(e)[k]);
    }
    if e.Ident? && Bare(e.rooted, e.path) {
      assert e.path == [e.path[0]];
      KeyOfName(declared, e.path[0]);
    }
  }

  /** Calls and increments assign only declared variables, and subroutines read and assign none
      that is declared after the initializer calling them. */
  predicate EffectsEarlier(names: Names, ds: seq<Decl>, declared: set<string>) {
    forall k :: 0 <= k < |ds| ==>
      && Writes(names, ds[k].init) <= KeysOf(declared)
      && SeenBy(names, ds[k].init) + Writes(names, ds[k].init) !! KeysFrom(ds, k)
  }

  lemma {:induction false} DirtyWithin(names: Names, ds: seq<Decl>, r: set<string>, declared: set<string>, k: nat, m: nat)
    requires k <= m < |ds| && r <= NamesOf(ds) <= declared && ds[m].name !in r && EffectsEarlier(names, ds, declared)
    ensures Dirty(names, ds, r, k) <= KeysOf(declared) && [ds[m].name] !in Dirty(names, ds, r, k)
  {
    if k == 0 {
      KeyOfName(r, ds[m].name);
    } else {
      DirtyWithin(names, ds, r, declared, k - 1, m);
      hide Writes, SeenBy, KeysOf;
      assert [ds[m].name] in KeysFrom(ds, k - 1);
    }
  }

  /** No declared name is a parameter, everything is folded plainly and effects are on earlier
      variables: then what is left out is apart from the set. */
  lemma PlainIsApart(sc: Scope, names: Names, ds: seq<Decl>, r: set<string>, declared: set<string>)
    requires HasSeed(ds) && Reissued(sc, ds, r) && NamesOf(ds) <= declared
    requires forall n :: n in declared ==> !sc.HasParam(n)
    requires forall k :: 0 <= k < |ds| && Folds(sc, ds[k].init) ==> FoldsPlainly(sc, names, declared, ds[k].init)
    requires EffectsEarlier(names, ds, declared)
    ensures KeptApart(names, ds, r)
  {
    LeftOut(sc, ds, r);
    forall k | 0 <= k < |ds| && ds[k].name !in r ensures LeftApart(names, ds, r, k) {
      PlainReadsParameters(sc, names, declared, ds[k].init);
      DirtyWithin(names, ds, r, declared, k, k);
    }
  }
}
