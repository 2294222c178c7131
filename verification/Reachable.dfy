/** The files that a top unit needs (src/main.rs, `--dump-merged-sv` with `-s`), and their
    extension by what adopted library text mentions. */
module Reachable {
  import opened Results
  import opened Worklists

  /** A scanned file: the units it declares, the names it mentions, and whether it has a
      `bind` outside every unit. */
  datatype File = File(declared: seq<string>, refs: seq<string>, topBind: bool)

  predicate Declares(f: File, n: string) {
    n in f.declared
  }

  /** The first of the leading `k` files that declares `n`. */
  function FirstDeclarer(fs: seq<File>, k: nat, n: string): Option<nat>
    requires k <= |fs|
  {
    if k == 0 then None
    else if FirstDeclarer(fs, k - 1, n).Some? then FirstDeclarer(fs, k - 1, n)
    else if Declares(fs[k - 1], n) then Some(k - 1)
    else None
  }

  function Owner(fs: seq<File>, n: string): Option<nat> {
    FirstDeclarer(fs, |fs|, n)
  }

  lemma {:induction false} FirstDeclarerIsFirst(fs: seq<File>, k: nat, n: string)
    requires k <= |fs|
    ensures match FirstDeclarer(fs, k, n)
      case Some(i) => i < k && Declares(fs[i], n) && forall j :: 0 <= j < i ==> !Declares(fs[j], n)
      case None => forall j :: 0 <= j < k ==> !Declares(fs[j], n)
  {
    if k > 0 {
      FirstDeclarerIsFirst(fs, k - 1, n);
    }
  }

  /** File `i` declares `n` and no earlier file does. */
  predicate FirstToDeclare(fs: seq<File>, i: nat, n: string) {
    i < |fs| && Declares(fs[i], n) && forall j :: 0 <= j < i ==> !Declares(fs[j], n)
  }

  method Owners(fs: seq<File>) returns (owner: map<string, nat>)
    ensures forall n :: (n in owner <==> Owner(fs, n).Some?) && (n in owner ==> owner[n] == Owner(fs, n).value)
    ensures forall n :: n in owner ==> owner[n] < |fs|
    ensures forall n :: if n in owner then FirstToDeclare(fs, owner[n], n) else forall j :: 0 <= j < |fs| ==> !Declares(fs[j], n)
  {
    owner := map[];
    for i := 0 to |fs|
      invariant forall n :: (n in owner <==> FirstDeclarer(fs, i, n).Some?) && (n in owner ==> owner[n] == FirstDeclarer(fs, i, n).value)
      invariant forall n :: n in owner ==> owner[n] < i
    {
      ghost var was := owner;
      for j := 0 to |fs[i].declared|
        invariant forall n :: n in owner <==> n in was || n in fs[i].declared[..j]
        invariant forall n :: n in owner ==> owner[n] == if n in was then was[n] else i
      {
        if fs[i].declared[j] !in owner {
          owner := owner[fs[i].declared[j] := i];
        }
      }
    }
    forall n ensures if n in owner then FirstToDeclare(fs, owner[n], n) else forall j :: 0 <= j < |fs| ==> !Declares(fs[j], n) {
      FirstDeclarerIsFirst(fs, |fs|, n);
    }
  }

  // ---------------------------------------------------------------- closures

  /** Some name that file `i` mentions is first declared by file `j`. */
  ghost predicate Mentions(fs: seq<File>, i: nat, j: nat)
    requires i < |fs|
  {
    exists n :: n in fs[i].refs && Owner(fs, n) == Some(j)
  }

  ghost predicate ClosedFiles(fs: seq<File>, s: set<nat>) {
    forall i: nat, j: nat :: i in s && i < |fs| && Mentions(fs, i, j) ==> j in s
  }

  /** `s` is the least closed set of files that contains `roots`. */
  ghost predicate Closure(fs: seq<File>, roots: set<nat>, s: set<nat>) {
    roots <= s && ClosedFiles(fs, s) && forall t: set<nat> :: roots <= t && ClosedFiles(fs, t) ==> s <= t
  }

  /** Files that nothing mentions by name but that the design may depend on. */
  ghost function AlwaysKept(fs: seq<File>): set<nat> {
    set i: nat | i < |fs| && (fs[i].declared == [] || fs[i].topBind)
  }

  /** The files that declare the names of `refs`. */
  ghost function OwnersOf(fs: seq<File>, refs: seq<string>): set<nat> {
    set n | n in refs && Owner(fs, n).Some? :: Owner(fs, n).value
  }

  /** Closing again after adding roots is closing once from all roots. */
  lemma ClosureResumes(fs: seq<File>, roots: set<nat>, kept: set<nat>, more: set<nat>, s: set<nat>)
    requires Closure(fs, roots, kept)
    ensures Closure(fs, kept + more, s) <==> Closure(fs, roots + more, s)
  {
    forall t: set<nat> | ClosedFiles(fs, t)
      ensures kept + more <= t <==> roots + more <= t
    {
      if roots + more <= t {
        assert roots <= t;
      }
    }
  }

  lemma ClosureUnique(fs: seq<File>, roots: set<nat>, s: set<nat>, t: set<nat>)
    requires Closure(fs, roots, s) && Closure(fs, roots, t)
    ensures s == t
  {
  }

  /** A reason to keep file `i`, given the others that are kept: it is the first to declare the top,
      it declares nothing at all, it has a `bind` outside every unit, or it is the first to declare
      a name that another kept file mentions. */
  ghost predicate Needed(fs: seq<File>, top: string, kept: set<nat>, i: nat)
    requires i < |fs|
  {
    || FirstToDeclare(fs, i, top) || fs[i].declared == [] || fs[i].topBind
    || exists j: nat, n :: j in kept && j != i && j < |fs| && n in fs[j].refs && FirstToDeclare(fs, i, n)
  }

  lemma OwnerIsFirst(fs: seq<File>, n: string, i: nat)
    ensures Owner(fs, n) == Some(i) <==> FirstToDeclare(fs, i, n)
  {
    FirstDeclarerIsFirst(fs, |fs|, n);
    if Owner(fs, n).Some? && i < |fs| {
      var j := Owner(fs, n).value;
      assert FirstToDeclare(fs, j, n);
      assert FirstToDeclare(fs, i, n) ==> !(j < i) && !(i < j);
    }
  }

  /** What is kept is kept for a reason, and what there is a reason to keep is kept. */
  lemma NeededIff(fs: seq<File>, top: string, kept: set<nat>, i: nat)
    requires Owner(fs, top).Some? && i < |fs| && Closure(fs, {Owner(fs, top).value} + AlwaysKept(fs), kept)
    ensures i in kept <==> Needed(fs, top, kept, i)
  {
    var roots := {Owner(fs, top).value} + AlwaysKept(fs);
    OwnerIsFirst(fs, top, i);
    if Needed(fs, top, kept, i) && i !in roots {
      var j: nat, n :| j in kept && j != i && j < |fs| && n in fs[j].refs && FirstToDeclare(fs, i, n);
      OwnerIsFirst(fs, n, i);
      assert Mentions(fs, j, i);
    }
    if !Needed(fs, top, kept, i) {
      forall j: nat, k: nat | j in kept - {i} && j < |fs| && Mentions(fs, j, k) ensures k in kept - {i} {
        var n :| n in fs[j].refs && Owner(fs, n) == Some(k);
        if k == i { OwnerIsFirst(fs, n, i); }
      }
      assert roots <= kept - {i} && ClosedFiles(fs, kept - {i});
    }
  }

  // ---------------------------------------------------------------- the two worklists

  /** Every file of `done` mentions only files of `s`. */
  ghost predicate Expanded(fs: seq<File>, done: set<nat>, s: set<nat>) {
    forall i: nat, j: nat :: i in done && i < |fs| && Mentions(fs, i, j) ==> j in s
  }

  ghost predicate Minimal(fs: seq<File>, roots: set<nat>, s: set<nat>) {
    forall t: set<nat> :: roots <= t && ClosedFiles(fs, t) ==> s <= t
  }

  lemma MinimalStep(fs: seq<File>, roots: set<nat>, s: set<nat>, i: nat, j: nat)
    requires Minimal(fs, roots, s) && i in s && i < |fs| && Mentions(fs, i, j)
    ensures Minimal(fs, roots, s + {j})
  {
  }

  /** The names of file `i` followed: its owners are kept and, if new, queued. */
  method Expand(fs: seq<File>, owner: map<string, nat>, i: nat, keep0: seq<bool>, queue0: seq<nat>, ghost roots: set<nat>)
    returns (keep: seq<bool>, queue: seq<nat>)
    requires |keep0| == |fs| && i < |fs| && keep0[i] && Elems(queue0) <= Flagged(keep0)
    requires forall n :: (n in owner <==> Owner(fs, n).Some?) && (n in owner ==> owner[n] == Owner(fs, n).value && owner[n] < |fs|)
    requires Minimal(fs, roots, Flagged(keep0))
    ensures |keep| == |fs| && Elems(queue) <= Flagged(keep) && Flagged(keep0) <= Flagged(keep)
    ensures Flagged(keep) - Elems(queue) == Flagged(keep0) - Elems(queue0)
    ensures Expanded(fs, {i}, Flagged(keep)) && Minimal(fs, roots, Flagged(keep))
    ensures keep == keep0 ==> queue == queue0
  {
    keep, queue := keep0, queue0;
    for r := 0 to |fs[i].refs|
      invariant |keep| == |fs| && keep[i] && Elems(queue) <= Flagged(keep) && Flagged(keep0) <= Flagged(keep)
      invariant Flagged(keep) - Elems(queue) == Flagged(keep0) - Elems(queue0)
      invariant forall n :: n in fs[i].refs[..r] && n in owner ==> owner[n] in Flagged(keep)
      invariant Minimal(fs, roots, Flagged(keep))
      invariant keep == keep0 ==> queue == queue0
    {
      var name := fs[i].refs[r];
      if name in owner {
        var dep := owner[name];
        if !keep[dep] {
          assert Mentions(fs, i, dep);
          MinimalStep(fs, roots, Flagged(keep), i, dep);
          FlagSet(keep, dep);
          Pushed(queue, dep);
          keep, queue := keep[dep := true], queue + [dep];
        }
      }
    }
  }

  /** The files that are kept without being mentioned join the start file. */
  method SeedAlways(fs: seq<File>, start: nat) returns (keep: seq<bool>, queue: seq<nat>)
    requires start < |fs|
    ensures |keep| == |fs| && Elems(queue) == Flagged(keep) == {start} + AlwaysKept(fs)
  {
    keep, queue := seq(|fs|, i => i == start), [start];
    for i := 0 to |fs|
      invariant |keep| == |fs| && Elems(queue) == Flagged(keep)
      invariant forall j: nat :: j < |fs| ==> (keep[j] <==> j == start || (j < i && j in AlwaysKept(fs)))
    {
      if (fs[i].declared == [] || fs[i].topBind) && !keep[i] {
        FlagSet(keep, i);
        Popped(queue + [i]);
        keep, queue := keep[i := true], queue + [i];
      }
    }
  }

  /** The files that the unit `top` needs, as flags; `None` if no file declares it. */
  method FilesForTop(top: string, fs: seq<File>) returns (kept: Option<seq<bool>>)
    ensures kept.None? <==> Owner(fs, top).None?
    ensures kept.Some? ==> |kept.value| == |fs| && Closure(fs, {Owner(fs, top).value} + AlwaysKept(fs), Flagged(kept.value))
    ensures kept.None? <==> forall i :: 0 <= i < |fs| ==> top !in fs[i].declared
    ensures kept.Some? ==> forall i: nat :: i < |fs| ==> (kept.value[i] <==> Needed(fs, top, Flagged(kept.value), i))
  {
    var owner := Owners(fs);
    FirstDeclarerIsFirst(fs, |fs|, top);
    if top !in owner {
      return None;
    }
    var keep, queue := SeedAlways(fs, owner[top]);
    ghost var roots := {owner[top]} + AlwaysKept(fs);
    while queue != []
      invariant |keep| == |fs| && roots <= Flagged(keep) && Elems(queue) <= Flagged(keep)
      invariant Expanded(fs, Flagged(keep) - Elems(queue), Flagged(keep))
      invariant Minimal(fs, roots, Flagged(keep))
      decreases Unflagged(keep), |queue|
    {
      var i, rest := queue[|queue| - 1], queue[..|queue| - 1];
      Popped(queue);
      ghost var was, done := keep, Flagged(keep) - Elems(queue);
      keep, queue := Expand(fs, owner, i, keep, rest, roots);
      FewerUnflagged(was, keep);
      assert Flagged(keep) - Elems(queue) <= done + {i};
    }
    forall i: nat | i < |fs| ensures keep[i] <==> Needed(fs, top, Flagged(keep), i) {
      NeededIff(fs, top, Flagged(keep), i);
    }
    return Some(keep);
  }

  /** Every name of `refs` that some file declares is pending or has its file in `s`. */
  ghost predicate Followed(fs: seq<File>, refs: seq<string>, pending: set<string>, s: set<nat>) {
    forall n :: n in refs && Owner(fs, n).Some? ==> n in pending || Owner(fs, n).value in s
  }

  ghost predicate AllFollowed(fs: seq<File>, pending: set<string>, s: set<nat>) {
    forall i: nat :: i in s && i < |fs| ==> Followed(fs, fs[i].refs, pending, s)
  }

  /** Following a pending name leads into every closed set that contains `s` and `more`. */
  ghost predicate Justified(fs: seq<File>, pending: set<string>, more: set<nat>, s: set<nat>) {
    forall n :: n in pending && Owner(fs, n).Some? ==>
      Owner(fs, n).value in more || exists i: nat :: i in s && i < |fs| && Mentions(fs, i, Owner(fs, n).value)
  }

  lemma JustifiedStep(fs: seq<File>, pending: set<string>, more: set<nat>, s: set<nat>, fi: nat)
    requires fi < |fs| && Justified(fs, pending, more, s)
    ensures Justified(fs, pending + Elems(fs[fi].refs), more, s + {fi})
  {
    forall n | n in pending + Elems(fs[fi].refs) && Owner(fs, n).Some?
      ensures Owner(fs, n).value in more || exists i: nat :: i in s + {fi} && i < |fs| && Mentions(fs, i, Owner(fs, n).value)
    {
      if n in fs[fi].refs {
        assert Mentions(fs, fi, Owner(fs, n).value);
      } else if Owner(fs, n).value !in more {
        var i: nat :| i in s && i < |fs| && Mentions(fs, i, Owner(fs, n).value);
        assert i in s + {fi};
      }
    }
  }

  lemma FollowedStep(fs: seq<File>, pending: set<string>, s: set<nat>, name: string, fi: nat)
    requires fi < |fs| && AllFollowed(fs, pending + {name}, s) && Owner(fs, name) == Some(fi)
    ensures AllFollowed(fs, pending + Elems(fs[fi].refs), s + {fi})
  {
    forall i: nat | i in s + {fi} && i < |fs|
      ensures Followed(fs, fs[i].refs, pending + Elems(fs[fi].refs), s + {fi})
    {
      if i in s {
        assert Followed(fs, fs[i].refs, pending + {name}, s);
      }
    }
  }

  lemma JustifiedMinimal(fs: seq<File>, pending: set<string>, roots: set<nat>, more: set<nat>, s: set<nat>, name: string)
    requires Minimal(fs, roots + more, s) && Justified(fs, pending, more, s) && name in pending && Owner(fs, name).Some?
    ensures Minimal(fs, roots + more, s + {Owner(fs, name).value})
  {
    if Owner(fs, name).value !in more {
      var i: nat :| i in s && i < |fs| && Mentions(fs, i, Owner(fs, name).value);
      MinimalStep(fs, roots + more, s, i, Owner(fs, name).value);
    }
  }

  /** The worklist of `ReAdd`: `included` grows from `kept` to the closure of `kept` and the
      files that declare the library's names. */
  ghost predicate ReAdding(fs: seq<File>, kept: set<nat>, libRefs: seq<string>, pending: set<string>, included: set<nat>) {
    kept <= included
    && Followed(fs, libRefs, pending, included) && AllFollowed(fs, pending, included)
    && Justified(fs, pending, OwnersOf(fs, libRefs), included)
    && Minimal(fs, kept + OwnersOf(fs, libRefs), included)
  }

  lemma ReAddingStarts(fs: seq<File>, kept: set<nat>, libRefs: seq<string>)
    requires ClosedFiles(fs, kept)
    ensures ReAdding(fs, kept, libRefs, Elems(libRefs), kept)
  {
    forall i: nat | i in kept && i < |fs| ensures Followed(fs, fs[i].refs, Elems(libRefs), kept) {
      forall n | n in fs[i].refs && Owner(fs, n).Some? ensures Owner(fs, n).value in kept {
        assert Mentions(fs, i, Owner(fs, n).value);
      }
    }
  }

  lemma ReAddingSteps(fs: seq<File>, kept: set<nat>, libRefs: seq<string>, rest: set<string>, name: string, included: set<nat>)
    requires ReAdding(fs, kept, libRefs, rest + {name}, included)
    requires Owner(fs, name).Some? ==> Owner(fs, name).value < |fs|
    ensures Owner(fs, name).None? || Owner(fs, name).value in included ==> ReAdding(fs, kept, libRefs, rest, included)
    ensures Owner(fs, name).Some? ==>
      ReAdding(fs, kept, libRefs, rest + Elems(fs[Owner(fs, name).value].refs), included + {Owner(fs, name).value})
  {
    if Owner(fs, name).Some? {
      var fi := Owner(fs, name).value;
      JustifiedMinimal(fs, rest + {name}, kept, OwnersOf(fs, libRefs), included, name);
      FollowedStep(fs, rest, included, name, fi);
      JustifiedStep(fs, rest, OwnersOf(fs, libRefs), included, fi);
    }
  }

  lemma ReAddingEnds(fs: seq<File>, kept: set<nat>, libRefs: seq<string>, included: set<nat>)
    requires ReAdding(fs, kept, libRefs, {}, included)
    ensures Closure(fs, kept + OwnersOf(fs, libRefs), included)
  {
    forall i: nat, j: nat | i in included && i < |fs| && Mentions(fs, i, j) ensures j in included {
      var n :| n in fs[i].refs && Owner(fs, n) == Some(j);
      assert Followed(fs, fs[i].refs, {}, included);
    }
  }

  /** Files dropped for `top` that the library text mentions after all, directly or through
      each other. Together with the kept ones they are what one closure from both kinds of
      root gives. */
  method ReAdd(fs: seq<File>, kept: seq<bool>, libRefs: seq<string>, ghost roots: set<nat>)
    returns (included: seq<bool>, added: seq<nat>)
    requires |kept| == |fs| && Closure(fs, roots, Flagged(kept))
    ensures |included| == |fs| && Closure(fs, roots + OwnersOf(fs, libRefs), Flagged(included))
    ensures Flagged(included) == Flagged(kept) + Elems(added) && Flagged(kept) !! Elems(added)
  {
    var owner := Owners(fs);
    included, added := kept, [];
    var queue := libRefs;
    ReAddingStarts(fs, Flagged(kept), libRefs);
    while queue != []
      invariant |included| == |fs| && Flagged(included) == Flagged(kept) + Elems(added) && Flagged(kept) !! Elems(added)
      invariant ReAdding(fs, Flagged(kept), libRefs, Elems(queue), Flagged(included))
      decreases Unflagged(included), |queue|
    {
      var name, rest := queue[|queue| - 1], queue[..|queue| - 1];
      Popped(queue);
      ReAddingSteps(fs, Flagged(kept), libRefs, Elems(rest), name, Flagged(included));
      queue := rest;
      if name in owner {
        var fi := owner[name];
        if !included[fi] {
          FlagSet(included, fi);
          Popped(added + [fi]);
          FewerUnflagged(included, included[fi := true]);
          assert Elems(rest + fs[fi].refs) == Elems(rest) + Elems(fs[fi].refs);
          included, added, queue := included[fi := true], added + [fi], rest + fs[fi].refs;
        }
      }
    }
    assert Elems(queue) == {};
    ReAddingEnds(fs, Flagged(kept), libRefs, Flagged(included));
    ClosureResumes(fs, roots, Flagged(kept), OwnersOf(fs, libRefs), Flagged(included));
  }
}
