/** Installing the re-issued assignments: the old list of initialization blocks is pruned,
    the new blocks go first, and the package indices are renewed
    (src/lib.rs, defer_static_syscall_inits; IEEE 1800-2017 section 6.21). */
module InitBlocks {
  import opened Results
  import opened StaticInit
  import InitRuns
  import InitLimits
  import InitOrder

  datatype Stmt =
    | Assign(lvalue: Expr, rvalue: Expr)
    | SeqBlock(name: Option<string>, stmts: seq<Stmt>)
    | Other(text: string)

  datatype Block = Block(stmt: Stmt, scope: string)

  function Dotted(path: Path): string {
    if path == [] then "" else if |path| == 1 then path[0] else path[0] + "." + Dotted(path[1..])
  }

  /** An assignment to a variable that the new blocks initialize. */
  predicate Hit(s: Stmt, scope: string, replaced: set<string>) {
    s.Assign? && s.lvalue.Ident?
    && (Dotted(s.lvalue.path) in replaced || (scope != "" && scope + "." + Dotted(s.lvalue.path) in replaced))
  }

  // ---------------------------------------------------------------- pruning one statement

  function Pruned(s: Stmt, scope: string, replaced: set<string>): Option<Stmt> {
    match s
    case Assign(_, _) => if Hit(s, scope, replaced) then None else Some(s)
    case SeqBlock(name, stmts) =>
      var kept := PrunedAll(stmts, scope, replaced);
      if kept == [] then None else Some(SeqBlock(name, kept))
    case Other(_) => Some(s)
  }

  function PrunedAll(ss: seq<Stmt>, scope: string, replaced: set<string>): seq<Stmt> {
    if ss == [] then [] else
      var first := Pruned(ss[0], scope, replaced);
      (if first.Some? then [first.value] else []) + PrunedAll(ss[1..], scope, replaced)
  }

  lemma {:induction false} PrunedAllAppend(ss: seq<Stmt>, s: Stmt, scope: string, replaced: set<string>)
    ensures PrunedAll(ss + [s], scope, replaced)
         == PrunedAll(ss, scope, replaced) + match Pruned(s, scope, replaced) case Some(t) => [t] case None => []
  {
    if ss != [] {
      PrunedAllAppend(ss[1..], s, scope, replaced);
      assert (ss + [s])[1..] == ss[1..] + [s];
    }
  }

  /** The statement after the edit, and whether its owner keeps it. */
  method RemoveReplaced(s: Stmt, scope: string, replaced: set<string>) returns (keep: bool, t: Stmt)
    ensures keep == Pruned(s, scope, replaced).Some?
    ensures keep ==> t == Pruned(s, scope, replaced).value
    decreases s
  {
    match s {
      case Assign(lvalue, _) =>
        keep, t := true, s;
        if lvalue.Ident? {
          var name := Dotted(lvalue.path);
          keep := name !in replaced && (scope == "" || scope + "." + name !in replaced);
        }
      case SeqBlock(name, stmts) =>
        var kept: seq<Stmt> := [];
        for i := 0 to |stmts|
          invariant kept == PrunedAll(stmts[..i], scope, replaced)
        {
          var retain, inner := RemoveReplaced(stmts[i], scope, replaced);
          assert stmts[..i + 1] == stmts[..i] + [stmts[i]];
          PrunedAllAppend(stmts[..i], stmts[i], scope, replaced);
          if retain {
            kept := kept + [inner];
          }
        }
        assert stmts[..|stmts|] == stmts;
        keep, t := kept != [], SeqBlock(name, kept);
      case Other(_) =>
        keep, t := true, s;
    }
  }

  /** The statements of `s` in order, with the block nesting taken away. */
  function Leaves(s: Stmt): seq<Stmt> {
    if s.SeqBlock? then LeavesAll(s.stmts) else [s]
  }

  function LeavesAll(ss: seq<Stmt>): seq<Stmt> {
    if ss == [] then [] else Leaves(ss[0]) + LeavesAll(ss[1..])
  }

  /** `ls` without the assignments that are hit. */
  function Spared(ls: seq<Stmt>, scope: string, replaced: set<string>): seq<Stmt> {
    if ls == [] then [] else (if Hit(ls[0], scope, replaced) then [] else [ls[0]]) + Spared(ls[1..], scope, replaced)
  }

  lemma {:induction false} SparedThen(a: seq<Stmt>, b: seq<Stmt>, scope: string, replaced: set<string>)
    ensures Spared(a + b, scope, replaced) == Spared(a, scope, replaced) + Spared(b, scope, replaced)
  {
    if a == [] {
      assert a + b == b;
    } else {
      assert (a + b)[1..] == a[1..] + b;
      SparedThen(a[1..], b, scope, replaced);
    }
  }

  /** Pruning removes exactly the assignments that are hit, at any depth, keeps the rest in
      order, and drops a statement exactly when nothing of it is left. */
  lemma {:induction false} PrunedLeaves(s: Stmt, scope: string, replaced: set<string>)
    ensures Pruned(s, scope, replaced).Some? <==> Spared(Leaves(s), scope, replaced) != []
    ensures Pruned(s, scope, replaced).Some? ==> Leaves(Pruned(s, scope, replaced).value) == Spared(Leaves(s), scope, replaced)
    decreases s
  {
    if s.SeqBlock? {
      PrunedAllLeaves(s.stmts, scope, replaced);
    }
  }

  lemma {:induction false} PrunedAllLeaves(ss: seq<Stmt>, scope: string, replaced: set<string>)
    ensures LeavesAll(PrunedAll(ss, scope, replaced)) == Spared(LeavesAll(ss), scope, replaced)
    ensures PrunedAll(ss, scope, replaced) == [] <==> Spared(LeavesAll(ss), scope, replaced) == []
    decreases ss
  {
    if ss != [] {
      PrunedLeaves(ss[0], scope, replaced);
      PrunedAllLeaves(ss[1..], scope, replaced);
      SparedThen(Leaves(ss[0]), LeavesAll(ss[1..]), scope, replaced);
      var first, rest := Pruned(ss[0], scope, replaced), PrunedAll(ss[1..], scope, replaced);
      if first.Some? {
        assert ([first.value] + rest)[1..] == rest;
      } else {
        assert [] + rest == rest;
      }
    }
  }

  // ---------------------------------------------------------------- the whole list

  /** Later pairs win, as when a list is collected into a map. */
  function OwnerMap(pairs: seq<(nat, string)>): map<nat, string> {
    if pairs == [] then map[] else
      var (i, owner) := pairs[|pairs| - 1];
      OwnerMap(pairs[..|pairs| - 1])[i := owner]
  }

  /** What becomes of old block number `i`. */
  function Keep(b: Block, i: nat, owners: map<nat, string>, replaced: set<string>): Option<Block> {
    if i in owners then (if owners[i] in replaced then None else Some(b)) else
      match Pruned(b.stmt, b.scope, replaced)
      case Some(t) => Some(b.(stmt := t))
      case None => None
  }

  function AsSeq<T>(o: Option<T>): seq<T> {
    if o.Some? then [o.value] else []
  }

  /** What is kept of the first `k` old blocks. */
  function Kept(bs: seq<Block>, owners: map<nat, string>, replaced: set<string>, k: nat): seq<Block>
    requires k <= |bs|
  {
    if k == 0 then [] else
      Kept(bs, owners, replaced, k - 1) + AsSeq(Keep(bs[k - 1], k - 1, owners, replaced))
  }

  /** The package indices of the first `k` old blocks, with `base` new blocks in front. */
  function Reindexed(bs: seq<Block>, owners: map<nat, string>, replaced: set<string>, base: nat, k: nat): seq<(nat, string)>
    requires k <= |bs|
  {
    if k == 0 then [] else
      Reindexed(bs, owners, replaced, base, k - 1)
      + if k - 1 in owners && owners[k - 1] !in replaced then [(base + |Kept(bs, owners, replaced, k - 1)|, owners[k - 1])] else []
  }

  method Collected(pairs: seq<(nat, string)>) returns (owners: map<nat, string>)
    ensures owners == OwnerMap(pairs)
  {
    owners := map[];
    for j := 0 to |pairs|
      invariant owners == OwnerMap(pairs[..j])
    {
      assert pairs[..j + 1][..j] == pairs[..j];
      owners := owners[pairs[j].0 := pairs[j].1];
    }
    assert pairs[..|pairs|] == pairs;
  }

  lemma NextKept(bs: seq<Block>, owners: map<nat, string>, replaced: set<string>, base: nat, i: nat)
    requires i < |bs|
    ensures Kept(bs, owners, replaced, i + 1) == Kept(bs, owners, replaced, i) + AsSeq(Keep(bs[i], i, owners, replaced))
    ensures Reindexed(bs, owners, replaced, base, i + 1)
         == Reindexed(bs, owners, replaced, base, i)
            + if i in owners && owners[i] !in replaced then [(base + |Kept(bs, owners, replaced, i)|, owners[i])] else []
  {
    hide Keep;
  }

  lemma NothingKept(bs: seq<Block>, owners: map<nat, string>, replaced: set<string>, base: nat)
    ensures Kept(bs, owners, replaced, 0) == [] && Reindexed(bs, owners, replaced, base, 0) == []
  {
  }

  class Elaborated {
    var staticInitBlocks: seq<Block>
    var pkgVarInitBlocks: seq<(nat, string)>

    method Install(issued: seq<Block>, replaced: set<string>)
      modifies this
      ensures var owners, n := OwnerMap(old(pkgVarInitBlocks)), |old(staticInitBlocks)|;
        staticInitBlocks == issued + Kept(old(staticInitBlocks), owners, replaced, n)
        && pkgVarInitBlocks == Reindexed(old(staticInitBlocks), owners, replaced, |issued|, n)
    {
      hide Kept, Reindexed, OwnerMap, Pruned;
      var owners := Collected(pkgVarInitBlocks);
      var bs, out := staticInitBlocks, issued;
      NothingKept(bs, owners, replaced, |issued|);
      staticInitBlocks, pkgVarInitBlocks := [], [];
      for i := 0 to |bs|
        invariant out == issued + Kept(bs, owners, replaced, i)
        invariant pkgVarInitBlocks == Reindexed(bs, owners, replaced, |issued|, i)
      {
        var block, keep := bs[i], false;
        NextKept(bs, owners, replaced, |issued|, i);
        if i in owners {
          keep := owners[i] !in replaced;
        } else {
          var retain, stmt := RemoveReplaced(block.stmt, block.scope, replaced);
          keep, block := retain, if retain then block.(stmt := stmt) else block;
        }
        if keep {
          if i in owners {
            pkgVarInitBlocks := pkgVarInitBlocks + [(|out|, owners[i])];
          }
          out := out + [block];
        }
      }
      staticInitBlocks := out;
    }
  }

  /** The block kept of old number `i` stands where `|Kept(.., i)|` blocks are kept before it. */
  lemma {:induction false} KeptAt(bs: seq<Block>, owners: map<nat, string>, replaced: set<string>, i: nat, k: nat)
    requires i < k <= |bs| && Keep(bs[i], i, owners, replaced).Some?
    ensures |Kept(bs, owners, replaced, i)| < |Kept(bs, owners, replaced, k)|
    ensures Kept(bs, owners, replaced, k)[|Kept(bs, owners, replaced, i)|] == Keep(bs[i], i, owners, replaced).value
  {
    if i < k - 1 {
      KeptAt(bs, owners, replaced, i, k - 1);
    }
  }

  lemma {:induction false} PairOf(bs: seq<Block>, owners: map<nat, string>, replaced: set<string>, base: nat, k: nat, p: nat, o: string)
    requires k <= |bs|
    ensures (p, o) in Reindexed(bs, owners, replaced, base, k)
       <==> exists i: nat :: i < k && i in owners && owners[i] == o && o !in replaced && p == base + |Kept(bs, owners, replaced, i)|
  {
    if k > 0 {
      PairOf(bs, owners, replaced, base, k - 1, p, o);
    }
  }

  /** The new index list: a pair (p, o) is in it exactly when some old block was owned by the
      package variable o, o is not replaced, and p is where that block, unchanged, now stands. */
  lemma OwnersFollow(bs: seq<Block>, issued: seq<Block>, owners: map<nat, string>, replaced: set<string>, p: nat, o: string)
    ensures var out := issued + Kept(bs, owners, replaced, |bs|);
      (p, o) in Reindexed(bs, owners, replaced, |issued|, |bs|) <==>
      exists i: nat :: i < |bs| && i in owners && owners[i] == o && o !in replaced
        && p == |issued| + |Kept(bs, owners, replaced, i)| && p < |out| && out[p] == bs[i]
  {
    hide Pruned, Reindexed;
    var out := issued + Kept(bs, owners, replaced, |bs|);
    PairOf(bs, owners, replaced, |issued|, |bs|, p, o);
    forall i: nat | i < |bs| && i in owners && owners[i] !in replaced
      ensures |issued| + |Kept(bs, owners, replaced, i)| < |out| && out[|issued| + |Kept(bs, owners, replaced, i)|] == bs[i]
    {
      KeptAt(bs, owners, replaced, i, |bs|);
    }
  }

  /** The statements of a list of blocks in the order in which they run. */
  function Work(bs: seq<Block>): seq<Stmt> {
    if bs == [] then [] else Work(bs[..|bs| - 1]) + Leaves(bs[|bs| - 1].stmt)
  }

  /** What should remain of old block number `i`: all of a package block unless its owner is
      replaced, any other block without the assignments that are hit. */
  function Rest(b: Block, i: nat, owners: map<nat, string>, replaced: set<string>): seq<Stmt> {
    if i !in owners then Spared(Leaves(b.stmt), b.scope, replaced)
    else if owners[i] in replaced then []
    else Leaves(b.stmt)
  }

  /** What should remain of the first `k` old blocks. */
  function Remaining(bs: seq<Block>, owners: map<nat, string>, replaced: set<string>, k: nat): seq<Stmt>
    requires k <= |bs|
  {
    if k == 0 then [] else Remaining(bs, owners, replaced, k - 1) + Rest(bs[k - 1], k - 1, owners, replaced)
  }

  lemma KeepRest(b: Block, i: nat, owners: map<nat, string>, replaced: set<string>)
    ensures match Keep(b, i, owners, replaced)
      case Some(c) => Leaves(c.stmt) == Rest(b, i, owners, replaced)
      case None => Rest(b, i, owners, replaced) == []
  {
    PrunedLeaves(b.stmt, b.scope, replaced);
  }

  lemma WorkAppend(bs: seq<Block>, b: Block)
    ensures Work(bs + [b]) == Work(bs) + Leaves(b.stmt)
  {
    assert (bs + [b])[..|bs|] == bs;
  }

  /** Of the old blocks run their old statements, in their old order, without those that are
      replaced and with every other one. */
  lemma {:induction false} WorkKept(bs: seq<Block>, owners: map<nat, string>, replaced: set<string>, k: nat)
    requires k <= |bs|
    ensures Work(Kept(bs, owners, replaced, k)) == Remaining(bs, owners, replaced, k)
  {
    hide *;
    if k == 0 {
      NoneKept(bs, owners, replaced);
    } else {
      WorkKept(bs, owners, replaced, k - 1);
      KeptStep(bs, owners, replaced, k);
      WorkStep(Kept(bs, owners, replaced, k - 1), bs[k - 1], k - 1, owners, replaced);
    }
  }

  lemma NoneKept(bs: seq<Block>, owners: map<nat, string>, replaced: set<string>)
    ensures Work(Kept(bs, owners, replaced, 0)) == Remaining(bs, owners, replaced, 0)
  {
  }

  lemma KeptStep(bs: seq<Block>, owners: map<nat, string>, replaced: set<string>, k: nat)
    requires 0 < k <= |bs|
    ensures Kept(bs, owners, replaced, k)
         == Kept(bs, owners, replaced, k - 1) + AsSeq(Keep(bs[k - 1], k - 1, owners, replaced))
    ensures Remaining(bs, owners, replaced, k)
         == Remaining(bs, owners, replaced, k - 1) + Rest(bs[k - 1], k - 1, owners, replaced)
  {
    hide Keep, Rest;
  }

  lemma WorkStep(kept: seq<Block>, b: Block, i: nat, owners: map<nat, string>, replaced: set<string>)
    ensures Work(kept + AsSeq(Keep(b, i, owners, replaced)))
         == Work(kept) + Rest(b, i, owners, replaced)
  {
    KeepRest(b, i, owners, replaced);
    hide Keep, Rest, Leaves;
    match Keep(b, i, owners, replaced)
    case Some(c) => WorkAppend(kept, c);
    case None => assert kept + [] == kept;
  }

  lemma {:induction false} WorkThen(a: seq<Block>, b: seq<Block>)
    ensures Work(a + b) == Work(a) + Work(b)
  {
    if b == [] {
      assert a + b == a;
    } else {
      var init, last := b[..|b| - 1], b[|b| - 1];
      WorkThen(a, init);
      assert a + b == (a + init) + [last];
      WorkAppend(a + init, last);
    }
  }

  /** The installed list runs the new assignments first and then what remains of the old ones. */
  lemma InstalledWork(bs: seq<Block>, issued: seq<Block>, owners: map<nat, string>, replaced: set<string>)
    ensures Work(issued + Kept(bs, owners, replaced, |bs|)) == Work(issued) + Remaining(bs, owners, replaced, |bs|)
  {
    WorkKept(bs, owners, replaced, |bs|);
    WorkThen(issued, Kept(bs, owners, replaced, |bs|));
  }

  lemma {:induction false} SparedClean(ls: seq<Stmt>, scope: string, replaced: set<string>, s: Stmt)
    requires s in Spared(ls, scope, replaced)
    ensures s in ls && !Hit(s, scope, replaced)
  {
    if ls[0] != s || Hit(s, scope, replaced) {
      SparedClean(ls[1..], scope, replaced, s);
    }
  }

  /** No assignment to a replaced name survives in a block that no package variable owns. */
  lemma NoneLeft(b: Block, i: nat, owners: map<nat, string>, replaced: set<string>, s: Stmt)
    requires i !in owners && Keep(b, i, owners, replaced).Some?
    requires s in Leaves(Keep(b, i, owners, replaced).value.stmt)
    ensures s in Leaves(b.stmt) && !Hit(s, b.scope, replaced)
  {
    PrunedLeaves(b.stmt, b.scope, replaced);
    SparedClean(Leaves(b.stmt), b.scope, replaced, s);
  }

  // ---------------------------------------------------------------- what the list computes

  /** The block that assigns a declaration's initializer. */
  function AsBlock(sc: Scope, d: Decl): Block {
    Block(Assign(Ident(false, [d.name], []), d.init), sc.path)
  }

  function AsBlocks(sc: Scope, ds: seq<Decl>): seq<Block> {
    if ds == [] then [] else AsBlocks(sc, ds[..|ds| - 1]) + [AsBlock(sc, ds[|ds| - 1])]
  }

  lemma {:induction false} AsBlocksAt(sc: Scope, ds: seq<Decl>, k: nat)
    requires k < |ds|
    ensures |AsBlocks(sc, ds)| == |ds| && AsBlocks(sc, ds)[k] == AsBlock(sc, ds[k])
  {
    if k < |ds| - 1 {
      AsBlocksAt(sc, ds[..|ds| - 1], k);
    } else if k > 0 {
      AsBlocksAt(sc, ds[..|ds| - 1], 0);
    }
  }

  lemma {:induction false} AsBlocksThen(sc: Scope, a: seq<Decl>, b: seq<Decl>)
    ensures AsBlocks(sc, a + b) == AsBlocks(sc, a) + AsBlocks(sc, b)
  {
    if b == [] {
      assert a + b == a;
    } else {
      var init, last := b[..|b| - 1], b[|b| - 1];
      AsBlocksThen(sc, a, init);
      assert (a + b)[..|a + b| - 1] == a + init && (a + b)[|a + b| - 1] == last;
    }
  }

  predicate NoDots(ds: seq<Decl>) {
    forall k :: 0 <= k < |ds| ==> '.' !in ds[k].name
  }

  /** The block of `n` is hit exactly when `n` is one of the replaced declarations. */
  lemma HitIff(sc: Scope, d: Decl, ds: seq<Decl>)
    requires NoDots(ds) && '.' !in d.name
    ensures Hit(AsBlock(sc, d).stmt, sc.path, FlatNames(sc, ds)) <==> d.name in NamesOf(ds)
  {
    assert Dotted([d.name]) == d.name;
    if d.name in NamesOf(ds) {
      var k :| 0 <= k < |ds| && ds[k].name == d.name;
      assert FlatName(sc, ds[k].name) in FlatNames(sc, ds);
    }
    forall k | 0 <= k < |ds| && FlatName(sc, ds[k].name) == FlatName(sc, d.name) ensures ds[k].name == d.name {
      if sc.path != "" {
        var p := sc.path + ".";
        assert FlatName(sc, ds[k].name)[|p|..] == ds[k].name && FlatName(sc, d.name)[|p|..] == d.name;
      }
    }
    forall k | 0 <= k < |ds| && sc.path != "" ensures FlatName(sc, ds[k].name) != d.name {
      assert FlatName(sc, ds[k].name)[|sc.path|] == '.';
    }
  }

  lemma KeptOne(sc: Scope, d: Decl, ds: seq<Decl>)
    requires NoDots(ds) && '.' !in d.name
    ensures Keep(AsBlock(sc, d), 0, map[], FlatNames(sc, ds)) == if d.name in NamesOf(ds) then None else Some(AsBlock(sc, d))
    ensures forall i :: Keep(AsBlock(sc, d), i, map[], FlatNames(sc, ds)) == Keep(AsBlock(sc, d), 0, map[], FlatNames(sc, ds))
  {
    hide Hit, FlatNames, NamesOf;
    HitIff(sc, d, ds);
  }

  lemma AsBlocksOne(sc: Scope, ds: seq<Decl>, d: Decl)
    ensures AsBlocks(sc, ds + [d]) == AsBlocks(sc, ds) + [AsBlock(sc, d)] && AsBlocks(sc, ds + []) == AsBlocks(sc, ds)
  {
    assert (ds + [d])[..|ds|] == ds && ds + [] == ds;
  }

  /** Of blocks that are not a package's, those of the other declarations are kept. */
  lemma {:induction false} KeptBlocks(sc: Scope, old': seq<Decl>, ds: seq<Decl>, late: set<string>, k: nat)
    requires NoDots(ds) && NoDots(old') && k <= |old'| == |AsBlocks(sc, old')|
    requires forall i :: 0 <= i < |old'| ==> (old'[i].name in late <==> old'[i].name !in NamesOf(ds))
    ensures Kept(AsBlocks(sc, old'), map[], FlatNames(sc, ds), k) == AsBlocks(sc, Emitted(old'[..k], late))
  {
    if k > 0 {
      var d := old'[k - 1];
      KeptBlocks(sc, old', ds, late, k - 1);
      AsBlocksAt(sc, old', k - 1);
      HitIff(sc, d, ds);
      assert old'[..k] == old'[..k - 1] + [d];
      EmittedAppend(old'[..k - 1], d, late);
      KeptOne(sc, d, ds);
      AsBlocksOne(sc, Emitted(old'[..k - 1], late), d);
    }
  }

  lemma {:induction false} EmittedTwice(ds: seq<Decl>, a: set<string>, b: set<string>)
    ensures Emitted(Emitted(ds, a), b) == Emitted(ds, a * b)
  {
    if ds != [] {
      var d, rest := ds[0], ds[1..];
      EmittedTwice(rest, a, b);
      assert ds == [d] + rest;
      InitRuns.EmittedOne(d, rest, a);
      InitRuns.EmittedOne(d, Emitted(rest, a), b);
      InitRuns.EmittedOne(d, rest, a * b);
      hide Emitted;
    }
  }

  lemma {:induction false} EmittedNames(ds: seq<Decl>, r: set<string>, n: string)
    ensures n in NamesOf(Emitted(ds, r)) <==> n in NamesOf(ds) && n in r
  {
    if ds != [] {
      var d, rest := ds[0], ds[1..];
      EmittedNames(rest, r, n);
      assert ds == [d] + rest;
      InitRuns.EmittedOne(d, rest, r);
      NamesFirst(d, rest, n);
      NamesFirst(d, Emitted(rest, r), n);
      hide Emitted, NamesOf;
    }
  }

  lemma {:induction false} EmittedMembers(ds: seq<Decl>, r: set<string>)
    ensures NoDots(ds) ==> NoDots(Emitted(ds, r))
    ensures forall k :: 0 <= k < |Emitted(ds, r)| ==> Emitted(ds, r)[k].name in r
  {
    if ds != [] {
      EmittedMembers(ds[1..], r);
      assert NoDots(ds) ==> NoDots(ds[1..]);
    }
  }

  lemma NamesFirst(d: Decl, ds: seq<Decl>, n: string)
    ensures n in NamesOf([d] + ds) <==> n == d.name || n in NamesOf(ds)
  {
    var all := [d] + ds;
    assert all[0] == d;
    assert forall k :: 0 <= k < |ds| ==> all[k + 1] == ds[k];
  }

  /** The declarations that may be re-issued: those that are no unpacked arrays. */
  function Candidates(ds: seq<Decl>, arrays: set<string>): seq<Decl> {
    Emitted(ds, NamesOf(ds) - arrays)
  }

  /** The old list: what elaboration did not fold, in declaration order. */
  function OldBlocks(sc: Scope, ds: seq<Decl>, arrays: set<string>): seq<Block> {
    AsBlocks(sc, Emitted(ds, Unfolded(sc, Candidates(ds, arrays)) + arrays))
  }

  /** After the edit the list runs the re-issued declarations and then the arrays. */
  lemma InstalledList(sc: Scope, ds: seq<Decl>, arrays: set<string>, r: set<string>)
    requires NoDots(ds) && arrays <= NamesOf(ds)
    requires HasSeed(Candidates(ds, arrays)) && Reissued(sc, Candidates(ds, arrays), r)
    ensures var issued, olds := Emitted(Candidates(ds, arrays), r), OldBlocks(sc, ds, arrays);
      AsBlocks(sc, issued) + Kept(olds, map[], FlatNames(sc, issued), |olds|) == AsBlocks(sc, InitOrder.Installed(ds, r, arrays))
    ensures r !! arrays
  {
    var cs := Candidates(ds, arrays);
    var unfolded := Unfolded(sc, cs);
    var olds := Emitted(ds, unfolded + arrays);
    LeftOut(sc, cs, r);
    forall n ensures n in NamesOf(cs) <==> n in NamesOf(ds) && n !in arrays {
      EmittedNames(ds, NamesOf(ds) - arrays, n);
    }
    assert unfolded <= r;
    EmittedTwice(ds, NamesOf(ds) - arrays, r);
    assert (NamesOf(ds) - arrays) * r == r;
    EmittedTwice(ds, unfolded + arrays, arrays);
    assert (unfolded + arrays) * arrays == arrays;
    forall n ensures n in NamesOf(Emitted(ds, r)) <==> n in r {
      EmittedNames(ds, r, n);
    }
    EmittedMembers(ds, r);
    EmittedMembers(ds, unfolded + arrays);
    if olds != [] { AsBlocksAt(sc, olds, 0); }
    hide Unfolded, Candidates, Emitted, NamesOf, Reissued, HasSeed, FlatNames, Kept;
    KeptBlocks(sc, olds, Emitted(ds, r), arrays, |olds|);
    assert olds[..|olds|] == olds;
    AsBlocksThen(sc, Emitted(ds, r), Emitted(ds, arrays));
  }

  lemma SeedsAll(sc: Scope, ds: seq<Decl>, arrays: set<string>, r: set<string>)
    requires HasSeed(Candidates(ds, arrays)) && Reissued(sc, Candidates(ds, arrays), r)
    ensures SeedsIn(ds, r + arrays)
  {
    var cs := Candidates(ds, arrays);
    LeftOut(sc, cs, r);
    forall k | 0 <= k < |ds| && Seed(ds[k]) && ds[k].name !in arrays ensures ds[k].name in r {
      var j := EmittedHas(ds, NamesOf(ds) - arrays, k);
      assert Seed(cs[j]);
    }
  }

  lemma {:induction false} EmittedHas(ds: seq<Decl>, r: set<string>, k: nat) returns (j: nat)
    requires k < |ds| && ds[k].name in r
    ensures j < |Emitted(ds, r)| && Emitted(ds, r)[j] == ds[k]
  {
    if k == 0 {
      j := 0;
    } else {
      j := EmittedHas(ds[1..], r, k - 1);
      j := if ds[0].name in r then j + 1 else j;
    }
  }

  /** The list that is installed, run over the elaborated variables, always ends where every
      initializer in declaration order ends, arrays included, if and only if each array is
      separate from all re-issued declarations behind it. */
  lemma InstalledListExact(sc: Scope, names: InitRuns.Names, ds: seq<Decl>, arrays: set<string>, r: set<string>)
    requires NoDots(ds) && arrays <= NamesOf(ds)
    requires HasSeed(Candidates(ds, arrays)) && Reissued(sc, Candidates(ds, arrays), r)
    requires InitLimits.DistinctNames(ds) && InitRuns.MentionsEarlier(names, ds)
    requires InitRuns.KeptApart(names, ds, r + arrays) && InitOrder.LateQuiet(names, ds, arrays)
    ensures var issued, olds := Emitted(Candidates(ds, arrays), r), OldBlocks(sc, ds, arrays);
      AsBlocks(sc, issued) + Kept(olds, map[], FlatNames(sc, issued), |olds|) == AsBlocks(sc, InitOrder.Installed(ds, r, arrays))
    ensures InitOrder.InOrder(names, ds, r, arrays) <==> InitOrder.InstalledAgrees(names, ds, r, arrays)
  {
    InstalledList(sc, ds, arrays, r);
    SeedsAll(sc, ds, arrays, r);
    InitOrder.InstalledExact(names, ds, r, arrays);
  }

  /** A path is written with dots between its segments. */
  lemma {:induction false} DottedMeans(a: Path, b: Path)
    requires a != [] && b != []
    ensures Dotted(a + b) == Dotted(a) + "." + Dotted(b)
    ensures Dotted([a[0]]) == a[0]
  {
    if |a| == 1 {
      assert (a + b)[1..] == b && (a + b)[0] == a[0];
    } else {
      assert (a + b)[1..] == a[1..] + b && (a + b)[0] == a[0];
      DottedMeans(a[1..], b);
    }
  }
}
