/** Collecting a body's hierarchical references, without those that a local declaration
    shadows (src/hier_ref_lint.rs, Walker and body_refs): a stack of scopes changed in place,
    against a definition that passes the visible names along. */
module ScopeWalker {
  import opened Results

  /** A reference by its components; `head` is the first. */
  datatype Ref = Ref(head: string, rest: seq<string>)

  /** An expression, by the references it mentions in order. */
  datatype Expr = Expr(refs: seq<Ref>)

  datatype Declarator = Declarator(name: string, init: Option<Expr>)

  datatype ForInit = Declare(name: string, init: Expr) | Set(lvalue: Expr, rvalue: Expr)

  /** What a statement without declarations of its own visits, in order. */
  datatype Part = Visit(expr: Expr) | Enter(stmt: Stmt)

  datatype Stmt =
    | Plain(parts: seq<Part>)
    | For(inits: seq<ForInit>, condition: Option<Expr>, step: seq<Expr>, body: Stmt)
    | Foreach(target: Expr, vars: seq<Option<string>>, body: Stmt)
    | Block(stmts: seq<Stmt>)
    | VarDecl(declarators: seq<Declarator>)

  // ---------------------------------------------------------------- the definition

  /** The references of `refs` whose head is not a visible local. */
  function Free(refs: seq<Ref>, visible: set<string>): seq<Ref> {
    if refs == [] then [] else (if refs[0].head in visible then [] else [refs[0]]) + Free(refs[1..], visible)
  }

  function FreeIn(e: Option<Expr>, visible: set<string>): seq<Ref> {
    if e.Some? then Free(e.value.refs, visible) else []
  }

  function FreeAll(es: seq<Expr>, visible: set<string>): seq<Ref> {
    if es == [] then [] else Free(es[0].refs, visible) + FreeAll(es[1..], visible)
  }

  /** References found, and the names visible to what follows in the same block. */
  datatype Found = Found(refs: seq<Ref>, visible: set<string>) {
    function Then(more: Found): Found {
      Found(refs + more.refs, more.visible)
    }
  }

  function Declared(ds: seq<Declarator>, visible: set<string>): Found {
    if ds == [] then Found([], visible) else
      var now := visible + {ds[0].name};
      Found(FreeIn(ds[0].init, now), now).Then(Declared(ds[1..], now))
  }

  function HeaderNames(inits: seq<ForInit>): set<string> {
    set k | 0 <= k < |inits| && inits[k].Declare? :: inits[k].name
  }

  function HeaderRefs(inits: seq<ForInit>, visible: set<string>): seq<Ref> {
    if inits == [] then [] else InitRefs(inits[0], visible) + HeaderRefs(inits[1..], visible)
  }

  function InitRefs(i: ForInit, visible: set<string>): seq<Ref> {
    match i
    case Declare(_, init) => Free(init.refs, visible)
    case Set(l, r) => Free(l.refs, visible) + Free(r.refs, visible)
  }

  function LoopRefs(inits: seq<ForInit>, condition: Option<Expr>, step: seq<Expr>, visible: set<string>): seq<Ref> {
    HeaderRefs(inits, visible) + FreeIn(condition, visible) + FreeAll(step, visible)
  }

  function VarNames(vars: seq<Option<string>>): set<string> {
    set k | 0 <= k < |vars| && vars[k].Some? :: vars[k].value
  }

  /** What `s` refers to where `visible` are the locals; a declaration is visible from its
      declarator on, to the end of its block. */
  function Collect(s: Stmt, visible: set<string>): Found {
    match s
    case Plain(parts) => CollectParts(parts, visible)
    case For(inits, condition, step, body) =>
      var inner := visible + HeaderNames(inits);
      Found(LoopRefs(inits, condition, step, inner) + Collect(body, inner).refs, visible)
    case Foreach(target, vars, body) =>
      Found(Free(target.refs, visible) + Collect(body, visible + VarNames(vars)).refs, visible)
    case Block(stmts) => Found(CollectAll(stmts, visible).refs, visible)
    case VarDecl(ds) => Declared(ds, visible)
  }

  function CollectAll(ss: seq<Stmt>, visible: set<string>): Found {
    if ss == [] then Found([], visible) else
      var first := Collect(ss[0], visible);
      first.Then(CollectAll(ss[1..], first.visible))
  }

  lemma CollectFirst(ss: seq<Stmt>, visible: set<string>)
    requires ss != []
    ensures var first := Collect(ss[0], visible);
            CollectAll(ss, visible) == first.Then(CollectAll(ss[1..], first.visible))
  {
  }

  function CollectParts(ps: seq<Part>, visible: set<string>): Found {
    if ps == [] then Found([], visible) else
      var first := CollectPart(ps[0], visible);
      first.Then(CollectParts(ps[1..], first.visible))
  }

  function CollectPart(p: Part, visible: set<string>): Found {
    match p
    case Visit(e) => Found(Free(e.refs, visible), visible)
    case Enter(s) => Collect(s, visible)
  }

  // ---------------------------------------------------------------- every reference where it is written

  /** A reference in the text, with the locals that are visible at its place. */
  datatype Written = Written(ref: Ref, env: set<string>)

  function Mentioned(e: Expr, env: set<string>): seq<Written> {
    seq(|e.refs|, k requires 0 <= k < |e.refs| => Written(e.refs[k], env))
  }

  function MentionedIn(e: Option<Expr>, env: set<string>): seq<Written> {
    if e.Some? then Mentioned(e.value, env) else []
  }

  function MentionedAll(es: seq<Expr>, env: set<string>): seq<Written> {
    if es == [] then [] else Mentioned(es[0], env) + MentionedAll(es[1..], env)
  }

  function InHeader(inits: seq<ForInit>, env: set<string>): seq<Written> {
    if inits == [] then [] else InInit(inits[0], env) + InHeader(inits[1..], env)
  }

  function InInit(i: ForInit, env: set<string>): seq<Written> {
    match i
    case Declare(_, init) => Mentioned(init, env)
    case Set(l, r) => Mentioned(l, env) + Mentioned(r, env)
  }

  function Declarators(ds: seq<Declarator>): set<string> {
    set k | 0 <= k < |ds| :: ds[k].name
  }

  /** The names that `s` declares in the block it stands in. */
  function Leaves(s: Stmt): set<string> {
    match s
    case Plain(parts) => set k, n | 0 <= k < |parts| && n in PartLeaves(parts[k]) :: n
    case VarDecl(ds) => Declarators(ds)
    case _ => {}
  }

  function PartLeaves(p: Part): set<string> {
    if p.Enter? then Leaves(p.stmt) else {}
  }

  /** Every reference in `s`, in order, each with what is visible at its place: what is visible
      before `s`, the names of the headers and the declarations before it of the blocks it is in. */
  function Everything(s: Stmt, env: set<string>): seq<Written> {
    match s
    case Plain(parts) => InParts(parts, env)
    case For(inits, condition, step, body) =>
      var inner := env + HeaderNames(inits);
      InHeader(inits, inner) + MentionedIn(condition, inner) + MentionedAll(step, inner) + Everything(body, inner)
    case Foreach(target, vars, body) => Mentioned(target, env) + Everything(body, env + VarNames(vars))
    case Block(stmts) => InBlock(stmts, env)
    case VarDecl(ds) => InDeclarators(ds, env)
  }

  function InBlock(ss: seq<Stmt>, env: set<string>): seq<Written> {
    if ss == [] then [] else Everything(ss[0], env) + InBlock(ss[1..], env + Leaves(ss[0]))
  }

  function InParts(ps: seq<Part>, env: set<string>): seq<Written> {
    if ps == [] then [] else InPart(ps[0], env) + InParts(ps[1..], env + PartLeaves(ps[0]))
  }

  function InPart(p: Part, env: set<string>): seq<Written> {
    match p
    case Visit(e) => Mentioned(e, env)
    case Enter(s) => Everything(s, env)
  }

  function InDeclarators(ds: seq<Declarator>, env: set<string>): seq<Written> {
    if ds == [] then [] else
      var now := env + {ds[0].name};
      MentionedIn(ds[0].init, now) + InDeclarators(ds[1..], now)
  }

  /** The references of `ws` whose head is not visible at their place. */
  function Unshadowed(ws: seq<Written>): seq<Ref> {
    if ws == [] then [] else (if ws[0].ref.head in ws[0].env then [] else [ws[0].ref]) + Unshadowed(ws[1..])
  }

  lemma {:induction false} UnshadowedThen(a: seq<Written>, b: seq<Written>)
    ensures Unshadowed(a + b) == Unshadowed(a) + Unshadowed(b)
  {
    if a == [] {
      assert a + b == b;
    } else {
      assert (a + b)[1..] == a[1..] + b;
      UnshadowedThen(a[1..], b);
    }
  }

  lemma {:induction false} UnshadowedIff(ws: seq<Written>, r: Ref)
    ensures r in Unshadowed(ws) <==> exists k :: 0 <= k < |ws| && ws[k].ref == r && r.head !in ws[k].env
  {
    if ws != [] {
      UnshadowedIff(ws[1..], r);
      if exists k :: 0 <= k < |ws[1..]| && ws[1..][k].ref == r && r.head !in ws[1..][k].env {
        var k :| 0 <= k < |ws[1..]| && ws[1..][k].ref == r && r.head !in ws[1..][k].env;
        assert ws[k + 1] == ws[1..][k];
      }
      forall k | 0 < k < |ws| ensures ws[k] == ws[1..][k - 1] {
      }
    }
  }

  lemma {:induction false} FreeIsUnshadowed(refs: seq<Ref>, env: set<string>)
    ensures Free(refs, env) == Unshadowed(Mentioned(Expr(refs), env))
  {
    if refs != [] {
      FreeIsUnshadowed(refs[1..], env);
      assert Mentioned(Expr(refs), env)[1..] == Mentioned(Expr(refs[1..]), env);
    }
  }

  lemma ExprUnshadowed(e: Expr, env: set<string>)
    ensures Free(e.refs, env) == Unshadowed(Mentioned(e, env))
  {
    FreeIsUnshadowed(e.refs, env);
    assert Expr(e.refs) == e;
  }

  lemma OptionUnshadowed(e: Option<Expr>, env: set<string>)
    ensures FreeIn(e, env) == Unshadowed(MentionedIn(e, env))
  {
    if e.Some? {
      ExprUnshadowed(e.value, env);
    }
  }

  lemma {:induction false} AllUnshadowed(es: seq<Expr>, env: set<string>)
    ensures FreeAll(es, env) == Unshadowed(MentionedAll(es, env))
  {
    if es != [] {
      ExprUnshadowed(es[0], env);
      AllUnshadowed(es[1..], env);
      UnshadowedThen(Mentioned(es[0], env), MentionedAll(es[1..], env));
    }
  }

  lemma {:induction false} HeaderUnshadowed(inits: seq<ForInit>, env: set<string>)
    ensures HeaderRefs(inits, env) == Unshadowed(InHeader(inits, env))
  {
    if inits != [] {
      match inits[0] {
        case Declare(_, init) =>
          ExprUnshadowed(init, env);
        case Set(lvalue, rvalue) =>
          ExprUnshadowed(lvalue, env);
          ExprUnshadowed(rvalue, env);
          UnshadowedThen(Mentioned(lvalue, env), Mentioned(rvalue, env));
      }
      HeaderUnshadowed(inits[1..], env);
      UnshadowedThen(InInit(inits[0], env), InHeader(inits[1..], env));
    }
  }

  lemma {:induction false} DeclaredExact(ds: seq<Declarator>, env: set<string>)
    ensures Declared(ds, env) == Found(Unshadowed(InDeclarators(ds, env)), env + Declarators(ds))
  {
    if ds != [] {
      var now := env + {ds[0].name};
      OptionUnshadowed(ds[0].init, now);
      DeclaredExact(ds[1..], now);
      UnshadowedThen(MentionedIn(ds[0].init, now), InDeclarators(ds[1..], now));
      assert Declarators(ds) == {ds[0].name} + Declarators(ds[1..]) by {
        assert ds == [ds[0]] + ds[1..];
        DeclaratorsFirst(ds[0], ds[1..]);
      }
    }
  }

  lemma DeclaratorsFirst(d: Declarator, ds: seq<Declarator>)
    ensures Declarators([d] + ds) == {d.name} + Declarators(ds)
  {
    var all := [d] + ds;
    assert all[0] == d;
    assert forall k :: 0 <= k < |ds| ==> all[k + 1] == ds[k];
    forall n | n in Declarators(ds) ensures n in Declarators(all) {
      var k :| 0 <= k < |ds| && ds[k].name == n;
      assert all[k + 1].name == n;
    }
  }

  /** The definition collects exactly the references whose head is no local visible at their
      place, in order, and leaves visible what the statement declares in its own block. */
  lemma {:induction false} CollectExact(s: Stmt, env: set<string>)
    ensures Collect(s, env) == Found(Unshadowed(Everything(s, env)), env + Leaves(s))
    decreases s, 0
  {
    match s
    case Plain(parts) => PartsExact(parts, env);
    case For(inits, condition, step, body) => LoopExact(inits, condition, step, body, env);
    case Foreach(target, vars, body) =>
      CollectExact(body, env + VarNames(vars));
      ExprUnshadowed(target, env);
      UnshadowedThen(Mentioned(target, env), Everything(body, env + VarNames(vars)));
    case Block(stmts) => BlockExact(stmts, env);
    case VarDecl(ds) => DeclaredExact(ds, env);
  }

  lemma {:induction false} LoopExact(inits: seq<ForInit>, condition: Option<Expr>, step: seq<Expr>, body: Stmt, env: set<string>)
    ensures Collect(For(inits, condition, step, body), env)
         == Found(Unshadowed(Everything(For(inits, condition, step, body), env)), env)
    decreases body, 1
  {
    var inner := env + HeaderNames(inits);
    var h, c, t := InHeader(inits, inner), MentionedIn(condition, inner), MentionedAll(step, inner);
    HeaderUnshadowed(inits, inner);
    OptionUnshadowed(condition, inner);
    AllUnshadowed(step, inner);
    CollectExact(body, inner);
    UnshadowedThen(h, c);
    UnshadowedThen(h + c, t);
    UnshadowedThen(h + c + t, Everything(body, inner));
  }

  lemma {:induction false} BlockExact(ss: seq<Stmt>, env: set<string>)
    ensures CollectAll(ss, env).refs == Unshadowed(InBlock(ss, env))
    decreases ss, 0
  {
    if ss != [] {
      CollectExact(ss[0], env);
      BlockExact(ss[1..], env + Leaves(ss[0]));
      UnshadowedThen(Everything(ss[0], env), InBlock(ss[1..], env + Leaves(ss[0])));
    }
  }

  lemma {:induction false} PartsExact(ps: seq<Part>, env: set<string>)
    ensures CollectParts(ps, env) == Found(Unshadowed(InParts(ps, env)), env + Leaves(Plain(ps)))
    decreases ps, 0
  {
    if ps == [] {
      assert env + Leaves(Plain(ps)) == env;
    } else {
      PartExact(ps[0], env);
      PartsExact(ps[1..], env + PartLeaves(ps[0]));
      UnshadowedThen(InPart(ps[0], env), InParts(ps[1..], env + PartLeaves(ps[0])));
      LeavesFirst(ps[0], ps[1..]);
      assert [ps[0]] + ps[1..] == ps;
      assert (env + PartLeaves(ps[0])) + Leaves(Plain(ps[1..])) == env + Leaves(Plain(ps));
    }
  }

  lemma LeavesFirst(p: Part, ps: seq<Part>)
    ensures Leaves(Plain([p] + ps)) == PartLeaves(p) + Leaves(Plain(ps))
  {
    var all := [p] + ps;
    assert all[0] == p && forall k :: 0 <= k < |ps| ==> all[k + 1] == ps[k];
    forall n | n in Leaves(Plain(ps)) ensures n in Leaves(Plain(all)) {
      var k :| 0 <= k < |ps| && n in PartLeaves(ps[k]);
      assert n in PartLeaves(all[k + 1]);
    }
  }

  lemma {:induction false} PartExact(p: Part, env: set<string>)
    ensures CollectPart(p, env) == Found(Unshadowed(InPart(p, env)), env + PartLeaves(p))
    decreases p, 0
  {
    match p
    case Visit(e) => ExprUnshadowed(e, env);
    case Enter(s) => CollectExact(s, env);
  }

  // ---------------------------------------------------------------- the stack

  /** The names in any frame of the stack. */
  function Union(locals: seq<set<string>>): set<string> {
    if locals == [] then {} else Union(locals[..|locals| - 1]) + locals[|locals| - 1]
  }

  lemma UnionPush(locals: seq<set<string>>, names: set<string>)
    ensures Union(locals + [names]) == Union(locals) + names
  {
    assert (locals + [names])[..|locals|] == locals;
  }

  lemma {:induction false} UnionHas(locals: seq<set<string>>, n: string)
    ensures n in Union(locals) <==> exists k :: 0 <= k < |locals| && n in locals[k]
  {
    if locals != [] {
      UnionHas(locals[..|locals| - 1], n);
    }
  }

  /** The stack `now` is `was` with at most the innermost frame grown. */
  predicate Grown(was: seq<set<string>>, now: seq<set<string>>) {
    |was| == |now| > 0 && now[..|now| - 1] == was[..|was| - 1] && was[|was| - 1] <= now[|now| - 1]
  }

  lemma Regrouped(a: seq<Ref>, b: seq<Ref>, c: seq<Ref>)
    ensures a + (b + c) == (a + b) + c
  {
  }

  class Walker {
    var out: seq<Ref>
    var locals: seq<set<string>>

    constructor (formals: set<string>)
      ensures out == [] && locals == [formals]
    {
      out, locals := [], [formals];
    }

    /** Collects the references of `e` and removes those whose head is a local. */
    method Expression(e: Expr)
      modifies this`out
      ensures out == old(out) + Free(e.refs, Union(locals))
    {
      var n := |out|;
      out := out + e.refs;
      var i := n;
      ghost var visible, kept: seq<Ref>, rest := Union(locals), [], e.refs;
      while i < |out|
        invariant out == old(out) + kept + rest && i == |old(out)| + |kept|
        invariant Free(e.refs, visible) == kept + Free(rest, visible)
        decreases |out| - i
      {
        assert out[i] == rest[0] && out[i + 1..] == rest[1..] && out[..i] == old(out) + kept;
        UnionHas(locals, out[i].head);
        if exists k :: 0 <= k < |locals| && out[i].head in locals[k] {
          out := out[..i] + out[i + 1..];
        } else {
          kept := kept + [out[i]];
          i := i + 1;
        }
        rest := rest[1..];
      }
    }

    method Expressions(es: seq<Expr>)
      modifies this`out
      ensures out == old(out) + FreeAll(es, Union(locals))
    {
      for i := 0 to |es|
        invariant old(out) + FreeAll(es, Union(locals)) == out + FreeAll(es[i..], Union(locals))
      {
        assert es[i..][0] == es[i] && es[i..][1..] == es[i + 1..];
        Regrouped(out, Free(es[i].refs, Union(locals)), FreeAll(es[i + 1..], Union(locals)));
        Expression(es[i]);
      }
      assert FreeAll([], Union(locals)) == [];
    }

    method Optional(e: Option<Expr>)
      modifies this`out
      ensures out == old(out) + FreeIn(e, Union(locals))
    {
      if e.Some? {
        Expression(e.value);
      }
    }

    method Header(inits: seq<ForInit>)
      modifies this`out
      ensures out == old(out) + HeaderRefs(inits, Union(locals))
    {
      for i := 0 to |inits|
        invariant old(out) + HeaderRefs(inits, Union(locals)) == out + HeaderRefs(inits[i..], Union(locals))
      {
        assert inits[i..][0] == inits[i] && inits[i..][1..] == inits[i + 1..];
        Regrouped(out, InitRefs(inits[i], Union(locals)), HeaderRefs(inits[i + 1..], Union(locals)));
        Initializer(inits[i]);
      }
    }

    method Initializer(i: ForInit)
      modifies this`out
      ensures out == old(out) + InitRefs(i, Union(locals))
    {
      match i {
        case Declare(_, init) =>
          Expression(init);
        case Set(lvalue, rvalue) =>
          Expression(lvalue);
          Expression(rvalue);
      }
    }

    /** Exactly the references that the definition gives are added, those collected before stay,
        and the stack comes back with only its innermost frame possibly grown. */
    method Statement(s: Stmt)
      requires locals != []
      modifies this
      ensures out == old(out) + Collect(s, old(Union(locals))).refs
      ensures Union(locals) == Collect(s, old(Union(locals))).visible
      ensures Grown(old(locals), locals)
      decreases s, 0
    {
      match s {
        case Plain(parts) =>
          Parts(parts);
        case For(inits, condition, step, body) =>
          Loop(inits, condition, step, body);
        case Foreach(target, vars, body) =>
          Expression(target);
          UnionPush(locals, VarNames(vars));
          locals := locals + [VarNames(vars)];
          Statement(body);
          locals := locals[..|locals| - 1];
        case Block(stmts) =>
          UnionPush(locals, {});
          locals := locals + [{}];
          assert Union(locals) == old(Union(locals));
          Statements(stmts);
          locals := locals[..|locals| - 1];
        case VarDecl(ds) =>
          DeclaratorList(ds);
      }
    }

    method LoopHead(inits: seq<ForInit>, condition: Option<Expr>, step: seq<Expr>)
      modifies this`out
      ensures out == old(out) + LoopRefs(inits, condition, step, Union(locals))
    {
      ghost var h, c, t := HeaderRefs(inits, Union(locals)), FreeIn(condition, Union(locals)), FreeAll(step, Union(locals));
      Regrouped(out, h, c);
      Regrouped(out, h + c, t);
      Header(inits);
      Optional(condition);
      Expressions(step);
    }

    /** A variable that the loop's header declares is local to the loop. */
    method Loop(inits: seq<ForInit>, condition: Option<Expr>, step: seq<Expr>, body: Stmt)
      requires locals != []
      modifies this
      ensures out == old(out) + Collect(For(inits, condition, step, body), old(Union(locals))).refs
      ensures locals == old(locals)
      decreases body, 1
    {
      UnionPush(locals, HeaderNames(inits));
      locals := locals + [HeaderNames(inits)];
      ghost var inner := Union(locals);
      Regrouped(out, LoopRefs(inits, condition, step, inner), Collect(body, inner).refs);
      LoopHead(inits, condition, step);
      Statement(body);
      locals := locals[..|locals| - 1];
    }

    method Statements(ss: seq<Stmt>)
      requires locals != []
      modifies this
      ensures out == old(out) + CollectAll(ss, old(Union(locals))).refs
      ensures Union(locals) == CollectAll(ss, old(Union(locals))).visible
      ensures Grown(old(locals), locals)
      decreases ss, 0
    {
      for i := 0 to |ss|
        invariant Grown(old(locals), locals)
        invariant old(out) + CollectAll(ss, old(Union(locals))).refs == out + CollectAll(ss[i..], Union(locals)).refs
        invariant CollectAll(ss, old(Union(locals))).visible == CollectAll(ss[i..], Union(locals)).visible
      {
        assert ss[i..][0] == ss[i] && ss[i..][1..] == ss[i + 1..];
        CollectFirst(ss[i..], Union(locals));
        hide CollectAll;
        Statement(ss[i]);
      }
    }

    method Parts(ps: seq<Part>)
      requires locals != []
      modifies this
      ensures out == old(out) + CollectParts(ps, old(Union(locals))).refs
      ensures Union(locals) == CollectParts(ps, old(Union(locals))).visible
      ensures Grown(old(locals), locals)
      decreases ps, 0
    {
      for i := 0 to |ps|
        invariant Grown(old(locals), locals)
        invariant old(out) + CollectParts(ps, old(Union(locals))).refs == out + CollectParts(ps[i..], Union(locals)).refs
        invariant CollectParts(ps, old(Union(locals))).visible == CollectParts(ps[i..], Union(locals)).visible
      {
        assert ps[i..][0] == ps[i] && ps[i..][1..] == ps[i + 1..];
        Visiting(ps[i]);
      }
    }

    method Visiting(p: Part)
      requires locals != []
      modifies this
      ensures out == old(out) + CollectPart(p, old(Union(locals))).refs
      ensures Union(locals) == CollectPart(p, old(Union(locals))).visible
      ensures Grown(old(locals), locals)
      decreases p, 0
    {
      match p {
        case Visit(e) =>
          Expression(e);
        case Enter(s) =>
          Statement(s);
      }
    }

    method DeclaratorList(ds: seq<Declarator>)
      requires locals != []
      modifies this
      ensures out == old(out) + Declared(ds, old(Union(locals))).refs
      ensures Union(locals) == Declared(ds, old(Union(locals))).visible
      ensures Grown(old(locals), locals)
    {
      for i := 0 to |ds|
        invariant Grown(old(locals), locals)
        invariant old(out) + Declared(ds, old(Union(locals))).refs == out + Declared(ds[i..], Union(locals)).refs
        invariant Declared(ds, old(Union(locals))).visible == Declared(ds[i..], Union(locals)).visible
      {
        assert ds[i..][0] == ds[i] && ds[i..][1..] == ds[i + 1..];
        var top := |locals| - 1;
        ghost var now := Union(locals) + {ds[i].name};
        assert locals[top := locals[top] + {ds[i].name}][..top] == locals[..top];
        locals := locals[top := locals[top] + {ds[i].name}];
        assert Union(locals) == now;
        Regrouped(out, FreeIn(ds[i].init, now), Declared(ds[i + 1..], now).refs);
        Optional(ds[i].init);
      }
    }
  }

  /** The references of a body whose own scope declares `formals`. */
  method BodyRefs(stmts: seq<Stmt>, formals: set<string>) returns (refs: seq<Ref>)
    ensures refs == CollectAll(stmts, formals).refs == Unshadowed(InBlock(stmts, formals))
  {
    var w := new Walker(formals);
    assert Union([formals]) == formals by { UnionPush([], formals); assert [] + [formals] == [formals]; }
    w.Statements(stmts);
    BlockExact(stmts, formals);
    return w.out;
  }

  // ---------------------------------------------------------------- what a local hides

  lemma HeaderNamesIff(inits: seq<ForInit>, n: string)
    ensures n in HeaderNames(inits) <==> exists e :: Declare(n, e) in inits
  {
    forall e | Declare(n, e) in inits ensures n in HeaderNames(inits) {
      var k :| 0 <= k < |inits| && inits[k] == Declare(n, e);
    }
    if n in HeaderNames(inits) {
      var k :| 0 <= k < |inits| && inits[k].Declare? && inits[k].name == n;
      assert Declare(n, inits[k].init) in inits;
    }
  }

  lemma VarNamesIff(vars: seq<Option<string>>, n: string)
    ensures n in VarNames(vars) <==> Some(n) in vars
  {
    if Some(n) in vars {
      var k :| 0 <= k < |vars| && vars[k] == Some(n);
    }
  }

  lemma {:induction false} FreeHides(refs: seq<Ref>, env: set<string>, r: Ref)
    ensures r in Free(refs, env) <==> r in refs && r.head !in env
  {
    if refs != [] {
      FreeHides(refs[1..], env, r);
    }
  }

  lemma {:induction false} AllHide(es: seq<Expr>, env: set<string>, r: Ref)
    requires r in FreeAll(es, env)
    ensures r.head !in env
  {
    if r in Free(es[0].refs, env) { FreeHides(es[0].refs, env, r); } else { AllHide(es[1..], env, r); }
  }

  lemma {:induction false} HeaderHides(inits: seq<ForInit>, env: set<string>, r: Ref)
    requires r in HeaderRefs(inits, env)
    ensures r.head !in env
  {
    if r in InitRefs(inits[0], env) {
      match inits[0] {
        case Declare(_, init) => FreeHides(init.refs, env, r);
        case Set(lvalue, rvalue) =>
          FreeHides(lvalue.refs, env, r);
          FreeHides(rvalue.refs, env, r);
      }
    } else {
      HeaderHides(inits[1..], env, r);
    }
  }

  lemma OptionHides(e: Option<Expr>, env: set<string>, r: Ref)
    requires r in FreeIn(e, env)
    ensures r.head !in env
  {
    FreeHides(e.value.refs, env, r);
  }

  lemma {:induction false} DeclaredHides(ds: seq<Declarator>, env: set<string>, r: Ref)
    requires r in Declared(ds, env).refs
    ensures r.head !in env
  {
    var now := env + {ds[0].name};
    if r in FreeIn(ds[0].init, now) { OptionHides(ds[0].init, now, r); } else { DeclaredHides(ds[1..], now, r); }
  }

  /** Nothing collected has a head that is visible before the statement, and what is visible stays so. */
  lemma {:induction false} VisibleHides(s: Stmt, env: set<string>, r: Ref)
    ensures env <= Collect(s, env).visible
    ensures r in Collect(s, env).refs ==> r.head !in env
    decreases s, 0
  {
    CollectExact(s, env);
    if r in Collect(s, env).refs {
      match s
      case Plain(parts) => PartsHide(parts, env, r);
      case For(inits, condition, step, body) => ForHides(inits, condition, step, body, env, r);
      case Foreach(target, vars, body) =>
        FreeHides(target.refs, env, r);
        VisibleHides(body, env + VarNames(vars), r);
      case Block(stmts) => BlockHides(stmts, env, r);
      case VarDecl(ds) => DeclaredHides(ds, env, r);
    }
  }

  /** In a loop neither are the names its header declares. */
  lemma {:induction false} ForHides(inits: seq<ForInit>, condition: Option<Expr>, step: seq<Expr>, body: Stmt, env: set<string>, r: Ref)
    requires r in Collect(For(inits, condition, step, body), env).refs
    ensures r.head !in env && forall e :: Declare(r.head, e) !in inits
    decreases body, 1
  {
    var inner := env + HeaderNames(inits);
    HeaderNamesIff(inits, r.head);
    if r in HeaderRefs(inits, inner) { HeaderHides(inits, inner, r); }
    else if r in FreeIn(condition, inner) { OptionHides(condition, inner, r); }
    else if r in FreeAll(step, inner) { AllHide(step, inner, r); }
    else { VisibleHides(body, inner, r); }
  }

  lemma {:induction false} BlockHides(ss: seq<Stmt>, env: set<string>, r: Ref)
    requires r in CollectAll(ss, env).refs
    ensures r.head !in env
    decreases ss, 0
  {
    VisibleHides(ss[0], env, r);
    if r !in Collect(ss[0], env).refs { BlockHides(ss[1..], Collect(ss[0], env).visible, r); }
  }

  lemma {:induction false} PartsHide(ps: seq<Part>, env: set<string>, r: Ref)
    requires r in CollectParts(ps, env).refs
    ensures r.head !in env
    decreases ps, 0
  {
    PartHides(ps[0], env, r);
    if r !in CollectPart(ps[0], env).refs { PartsHide(ps[1..], CollectPart(ps[0], env).visible, r); }
  }

  lemma {:induction false} PartHides(p: Part, env: set<string>, r: Ref)
    ensures env <= CollectPart(p, env).visible
    ensures r in CollectPart(p, env).refs ==> r.head !in env
    decreases p, 0
  {
    match p
    case Visit(e) => FreeHides(e.refs, env, r);
    case Enter(s) => VisibleHides(s, env, r);
  }

  /** The body of a `foreach` does not see past its variables, the array it runs over does. */
  lemma ForeachHides(target: Expr, vars: seq<Option<string>>, body: Stmt, env: set<string>, r: Ref)
    ensures r in Collect(Foreach(target, vars, body), env).refs ==>
      r.head !in env && (r in target.refs || Some(r.head) !in vars)
    ensures r in target.refs && r.head !in env ==> r in Collect(Foreach(target, vars, body), env).refs
  {
    FreeHides(target.refs, env, r);
    VarNamesIff(vars, r.head);
    VisibleHides(body, env + VarNames(vars), r);
  }

  lemma OneDeclared(d: Declarator, env: set<string>)
    ensures Declared([d], env) == Found(FreeIn(d.init, env + {d.name}), env + {d.name})
  {
    assert [d][1..] == [];
    assert Declared([], env + {d.name}) == Found([], env + {d.name});
  }

  /** A declaration hides its name in its own initializer and in what follows in the block, and no
      longer behind the block. */
  lemma DeclarationHides(d: Declarator, rest: seq<Stmt>, env: set<string>, r: Ref)
    ensures r in Collect(Block([VarDecl([d])] + rest), env).refs ==> r.head != d.name && r.head !in env
    ensures Collect(Block([VarDecl([d])] + rest), env).visible == env
  {
    var all := [VarDecl([d])] + rest;
    assert all[0] == VarDecl([d]) && all[1..] == rest;
    var now := env + {d.name};
    OneDeclared(d, env);
    CollectFirst(all, env);
    assert CollectAll(all, env).refs == FreeIn(d.init, now) + CollectAll(rest, now).refs;
    if r in CollectAll(all, env).refs {
      if r in FreeIn(d.init, now) { OptionHides(d.init, now, r); } else { BlockHides(rest, now, r); }
    }
  }
}
