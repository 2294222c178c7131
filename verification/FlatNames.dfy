/** Names of the elaborated design and the resolution of hierarchical references
    (src/hier_ref_lint.rs; IEEE 1800-2023 sections 23.6, 23.8 and 27.6). */
module FlatNames {
  import opened Results

  // ---------------------------------------------------------------- strings

  predicate Less(a: string, b: string) {
    b != "" && (a == "" || a[0] < b[0] || (a[0] == b[0] && Less(a[1..], b[1..])))
  }

  predicate StartsWith(k: string, p: string) {
    |p| <= |k| && k[..|p|] == p
  }

  ghost predicate Sorted(ks: seq<string>) {
    forall i, j :: 0 <= i < j < |ks| ==> Less(ks[i], ks[j])
  }

  /** Where the keys that are not below `p` begin; in a sorted list there is one such place,
      however it is searched for. */
  function PartitionPoint(ks: seq<string>, p: string): (i: nat)
    ensures i <= |ks|
    ensures forall j :: 0 <= j < i ==> Less(ks[j], p)
    ensures i < |ks| ==> !Less(ks[i], p)
  {
    if ks == [] || !Less(ks[0], p) then 0 else 1 + PartitionPoint(ks[1..], p)
  }

  /** A string between a prefix and something that has the prefix has it too. */
  lemma {:induction false} Between(p: string, x: string, k: string)
    requires StartsWith(k, p) && !Less(x, p) && !Less(k, x)
    ensures StartsWith(x, p)
  {
    if p != "" {
      assert k[0] == p[0] && x != "" && x[0] == p[0];
      assert k[1..][..|p| - 1] == p[1..];
      Between(p[1..], x[1..], k[1..]);
      assert x[..|p|] == [x[0]] + x[1..][..|p| - 1];
    }
  }

  lemma {:induction false} NotBelowPrefix(p: string, k: string)
    requires StartsWith(k, p)
    ensures !Less(k, p)
  {
    if p != "" {
      assert k[0] == p[0] && k[1..][..|p| - 1] == p[1..];
      NotBelowPrefix(p[1..], k[1..]);
    }
  }

  lemma {:induction false} LessAntisymmetric(a: string, b: string)
    requires Less(a, b)
    ensures !Less(b, a)
  {
    if a != "" && a[0] == b[0] {
      LessAntisymmetric(a[1..], b[1..]);
    }
  }

  lemma {:induction false} NotLessSelf(a: string)
    ensures !Less(a, a)
  {
    if a != "" {
      NotLessSelf(a[1..]);
    }
  }

  // ---------------------------------------------------------------- flat scopes

  /** Where the last dot is; 0 without one. */
  function LastDot(s: string): (i: nat)
    ensures i <= |s| && (s != "" ==> i < |s|)
  {
    if s == "" || s[|s| - 1] == '.' then (if s == "" then 0 else |s| - 1) else LastDot(s[..|s| - 1])
  }

  /** The enclosing scope; `None` for the top. */
  function Parent(scope: string): (p: Option<string>)
    ensures p.None? <==> scope == ""
    ensures p.Some? ==> |p.value| < |scope|
  {
    if scope == "" then None else Some(scope[..LastDot(scope)])
  }

  function Join(scope: string, name: string): string {
    if scope == "" then name else scope + "." + name
  }

  function Leaf(s: string): string {
    if '.' in s then s[LastDot(s) + 1..] else s
  }

  function UpToBracket(s: string): string {
    if s == "" || s[0] == '[' then "" else [s[0]] + UpToBracket(s[1..])
  }

  predicate AllDigits(s: string) {
    forall k :: 0 <= k < |s| ==> '0' <= s[k] <= '9'
  }

  /** `genblk<N>`, the implicit name of an unnamed generate block. */
  predicate Implicit(name: string) {
    StartsWith(name, "genblk") && name[6..] != "" && AllDigits(name[6..])
  }

  lemma {:induction false} LastDotOf(s: string, name: string)
    requires '.' !in name
    ensures LastDot(s + "." + name) == |s|
  {
    var all := s + "." + name;
    if name == "" {
      assert all == s + ".";
    } else {
      var init := name[..|name| - 1];
      assert all[..|all| - 1] == s + "." + init;
      LastDotOf(s, init);
    }
  }

  lemma {:induction false} NoDot(s: string)
    requires '.' !in s
    ensures LastDot(s) == 0
  {
    if s != "" {
      NoDot(s[..|s| - 1]);
    }
  }

  /** The parent of a child is the scope it is a child of. */
  lemma ParentOfChild(scope: string, name: string)
    requires name != "" && '.' !in name
    ensures Parent(Join(scope, name)) == Some(scope)
  {
    if scope == "" {
      NoDot(name);
    } else {
      LastDotOf(scope, name);
      assert (scope + "." + name)[..|scope|] == scope;
    }
  }

  // ---------------------------------------------------------------- the tables

  /** A component of a reference. `sel` is its literal select as flat names spell it, "" for
      no select, `None` for a select that is not a literal. */
  datatype Seg = Seg(name: string, sel: Option<string>)

  datatype Step = Item | Scope(path: string) | Missing

  datatype Miss = Miss(scope: string, name: string)

  /** The tables. `items` are the flat names of declarations, `elided` those of elided ports,
      which only a hash list keeps; `sorted` has the items and every instance path. */
  datatype Names = Names(
    top: string, items: set<string>, elided: set<string>, sorted: seq<string>,
    insts: map<string, string>, genblocks: set<string>, gens: set<string>, opaqueNames: set<string>,
    members: map<string, set<string>>, blocks: set<string>, aliases: map<string, string>)
  {
    ghost predicate Valid() {
      Sorted(sorted) && forall n :: n in sorted <==> n in items || n in insts
    }

    predicate IsItem(n: string) {
      n in items || n in elided
    }

    /** Some flat name starts with `p`: the one at the place of `p` in the sorted list. */
    predicate Under(p: string) {
      var i := PartitionPoint(sorted, p);
      i < |sorted| && StartsWith(sorted[i], p)
    }

    predicate IsScope(n: string) {
      n in insts || n in blocks || n in genblocks || Under(n + ".")
    }

    /** A scope whose every declaration is in the tables. */
    predicate Closed(n: string) {
      if n == "" || n in insts then true
      else if (IsItem(n) && n !in genblocks) || n in blocks then false
      else UpToBracket(Leaf(n)) in gens || Implicit(UpToBracket(Leaf(n)))
    }

    function Bound(key: string): string {
      if key in aliases then aliases[key] else key
    }

    /** What `seg` names in scope `cur`. */
    function StepAt(cur: string, seg: Seg): Step {
      var bare := Join(cur, seg.name);
      if seg.sel.Some? && bare + seg.sel.value in insts then Scope(bare + seg.sel.value)
      else if seg.sel.Some? && Bound(bare + seg.sel.value) != bare + seg.sel.value then Scope(Bound(bare + seg.sel.value))
      else if bare in genblocks then
        if seg.sel.Some? then (if IsScope(bare + seg.sel.value) then Scope(bare + seg.sel.value) else Missing)
        else if Under(bare + "[") then Item
        else Missing
      else if IsItem(bare) then Item
      else if seg.sel.Some? then
        if seg.sel.value != "" && IsItem(bare + seg.sel.value) then Item
        else if IsScope(bare + seg.sel.value) then Scope(bare + seg.sel.value)
        else Missing
      else if Under(bare + "[") then Item
      else Missing
    }

    /** The definition that the text of a body in `scope` comes from. */
    function OwnerOf(scope: string): string
      decreases |scope|
    {
      if scope in insts then insts[scope]
      else if Parent(scope).None? then top
      else OwnerOf(Parent(scope).value)
    }

    method Owner(scope: string) returns (def: string)
      ensures def == OwnerOf(scope)
    {
      var cur := scope;
      while true
        invariant OwnerOf(cur) == OwnerOf(scope)
        decreases |cur|
      {
        if cur in insts {
          return insts[cur];
        }
        if Parent(cur).None? {
          return top;
        }
        cur := Parent(cur).value;
      }
    }

    /** The component is declared in `cur`'s definition under a key the tables do not have. */
    predicate Elsewhere(cur: string, name: string) {
      OwnerOf(cur) in members && name in members[OwnerOf(cur)]
    }

    // -------------------------------------------------------------- walking down

    /** What following `segs` down from `cur` misses, if anything. */
    function Missed(cur: string, segs: seq<Seg>): Option<Miss>
      decreases |segs|
    {
      if segs == [] then None else
      match StepAt(cur, segs[0])
      case Item => None
      case Scope(s) => Missed(s, segs[1..])
      case Missing =>
        if Implicit(segs[0].name) then Missed(cur, segs[1..])
        else if Elsewhere(cur, segs[0].name) || !Closed(cur) then None
        else Some(Miss(cur, segs[0].name))
    }

    method Walk(from: string, segs: seq<Seg>) returns (miss: Option<Miss>)
      ensures miss == Missed(from, segs)
    {
      var cur := from;
      for i := 0 to |segs|
        invariant Missed(cur, segs[i..]) == Missed(from, segs)
      {
        assert segs[i..][0] == segs[i] && segs[i..][1..] == segs[i + 1..];
        match StepAt(cur, segs[i]) {
          case Item =>
            return None;
          case Scope(s) =>
            cur := s;
          case Missing =>
            if !Implicit(segs[i].name) {
              var def := Owner(cur);
              if (def in members && segs[i].name in members[def]) || !Closed(cur) {
                return None;
              }
              return Some(Miss(cur, segs[i].name));
            }
        }
      }
      return None;
    }

    // -------------------------------------------------------------- searching up

    /** `scope` and its enclosing scopes, nearest first. */
    function Levels(scope: string): seq<string>
      decreases |scope|
    {
      if Parent(scope).None? then [scope] else [scope] + Levels(Parent(scope).value)
    }

    /** Where the head resolves at level `l`: to a declaration, or to a scope to walk down from. */
    function HeadAt(l: string, head: Seg): Step {
      var s := StepAt(l, head);
      if !s.Missing? then s
      else if l == "" then (if head.name == top then Scope("") else Missing)
      else if (head.sel.Some? && Leaf(l) == head.name + head.sel.value) || (l in insts && insts[l] == head.name) then Scope(l)
      else Missing
    }

    /** The number of leading levels at which the head does not resolve. */
    function Misses(levels: seq<string>, head: Seg): (n: nat)
      ensures n <= |levels|
    {
      if levels == [] || !HeadAt(levels[0], head).Missing? then 0 else 1 + Misses(levels[1..], head)
    }

    predicate NotHierarchical(head: Seg) {
      head.name in opaqueNames || head.name in {"this", "super", "local", "std"} || StartsWith(head.name, "$")
    }

    /** Where the components after the head are looked up, if they are. */
    function StartOf(scope: string, segs: seq<Seg>): Option<(string, seq<Seg>)>
      requires segs != []
    {
      if segs[0].name == "$root" then
        if |segs| == 1 then None
        else if segs[1].name == top then Some(("", segs[2..]))
        else Some(("", segs[1..]))
      else if NotHierarchical(segs[0]) then None
      else
        var n := Misses(Levels(scope), segs[0]);
        if n == |Levels(scope)| then None
        else if HeadAt(Levels(scope)[n], segs[0]).Scope? then Some((HeadAt(Levels(scope)[n], segs[0]).path, segs[1..]))
        else None
    }

    function Resolved(scope: string, segs: seq<Seg>): Option<Miss>
      requires segs != []
    {
      var start := StartOf(scope, segs);
      if start.None? then None else Missed(start.value.0, start.value.1)
    }

    method Resolve(scope: string, segs: seq<Seg>) returns (miss: Option<Miss>)
      requires segs != []
      ensures miss == Resolved(scope, segs)
    {
      var head := segs[0];
      if head.name == "$root" {
        if |segs| == 1 {
          return None;
        }
        miss := Walk("", if segs[1].name == top then segs[2..] else segs[1..]);
        return;
      }
      if NotHierarchical(head) {
        return None;
      }
      var level := Some(scope);
      ghost var n := 0;
      var all := Levels(scope);
      while level.Some?
        invariant n <= |all| && (if level.Some? then all[n..] == Levels(level.value) else n == |all|)
        invariant Misses(all, head) == n + Misses(all[n..], head)
        decreases if level.Some? then |level.value| + 1 else 0
      {
        var l := level.value;
        assert all[n..][0] == l && all[n..][1..] == all[n + 1..] && all[n] == l;
        match StepAt(l, head) {
          case Item =>
            return None;
          case Scope(s) =>
            miss := Walk(s, segs[1..]);
            return;
          case Missing =>
        }
        if l == "" {
          if head.name == top {
            miss := Walk("", segs[1..]);
            return;
          }
        } else if (head.sel.Some? && Leaf(l) == head.name + head.sel.value) || (l in insts && insts[l] == head.name) {
          miss := Walk(l, segs[1..]);
          return;
        }
        n := n + 1;
        level := Parent(l);
      }
      return None;
    }
  }

  // ---------------------------------------------------------------- what resolution means

  /** The prefix query is true exactly when some flat name has the prefix. */
  lemma UnderIff(nm: Names, p: string)
    requires nm.Valid()
    ensures nm.Under(p) <==> exists k :: (k in nm.items || k in nm.insts) && StartsWith(k, p)
  {
    var i := PartitionPoint(nm.sorted, p);
    if nm.Under(p) {
      assert nm.sorted[i] in nm.sorted;
    }
    forall k | (k in nm.items || k in nm.insts) && StartsWith(k, p) ensures nm.Under(p) {
      var j :| 0 <= j < |nm.sorted| && nm.sorted[j] == k;
      NotBelowPrefix(p, k);
      if i < j {
        LessAntisymmetric(nm.sorted[i], k);
      } else {
        NotLessSelf(k);
      }
      Between(p, nm.sorted[i], k);
    }
  }

  /** The levels are the scope and its parents, up to the top. */
  lemma {:induction false} LevelsAreParents(nm: Names, scope: string, i: nat)
    requires i < |nm.Levels(scope)|
    ensures nm.Levels(scope)[0] == scope
    ensures if i + 1 < |nm.Levels(scope)| then Parent(nm.Levels(scope)[i]) == Some(nm.Levels(scope)[i + 1]) else nm.Levels(scope)[i] == ""
    decreases |scope|
  {
    if Parent(scope).Some? {
      if i > 0 {
        LevelsAreParents(nm, Parent(scope).value, i - 1);
      } else {
        LevelsAreParents(nm, Parent(scope).value, 0);
      }
    }
  }

  /** The head is taken at the nearest level at which it resolves. */
  lemma {:induction false} NearestLevel(nm: Names, levels: seq<string>, head: Seg)
    ensures var n := nm.Misses(levels, head);
      (forall j :: 0 <= j < n ==> nm.HeadAt(levels[j], head).Missing?)
      && (n < |levels| ==> !nm.HeadAt(levels[n], head).Missing?)
  {
    if levels != [] && nm.HeadAt(levels[0], head).Missing? {
      NearestLevel(nm, levels[1..], head);
    }
  }

  /** The scope reached after `i` components from `cur`, if the walk gets that far. */
  function After(nm: Names, cur: string, segs: seq<Seg>, i: nat): Option<string>
    requires i <= |segs|
  {
    if i == 0 then Some(cur) else
    match After(nm, cur, segs, i - 1)
    case None => None
    case Some(at) =>
      match nm.StepAt(at, segs[i - 1])
      case Item => None
      case Scope(s) => Some(s)
      case Missing => if Implicit(segs[i - 1].name) then Some(at) else None
  }

  /** In scope `at`, component `seg` is certainly not declared. */
  predicate Undeclared(nm: Names, at: string, seg: Seg) {
    nm.StepAt(at, seg).Missing? && !Implicit(seg.name) && !nm.Elsewhere(at, seg.name) && nm.Closed(at)
  }

  lemma {:induction false} AfterLater(nm: Names, cur: string, segs: seq<Seg>, i: nat)
    requires 0 < i <= |segs|
    ensures After(nm, cur, segs, i) == match After(nm, cur, segs, 1) case None => None case Some(at) => After(nm, at, segs[1..], i - 1)
  {
    if i > 1 {
      AfterLater(nm, cur, segs, i - 1);
      assert segs[1..][i - 2] == segs[i - 1];
    }
  }

  /** The walk comes to component `i` in the scope of `m`, and that component is the one `m` names. */
  predicate MissAt(nm: Names, cur: string, segs: seq<Seg>, m: Miss, i: nat) {
    i < |segs| && After(nm, cur, segs, i) == Some(m.scope) && Undeclared(nm, m.scope, segs[i]) && segs[i].name == m.name
  }

  lemma {:induction false} MissedAfter(nm: Names, cur: string, segs: seq<Seg>, i: nat)
    requires i <= |segs| && After(nm, cur, segs, i).Some?
    ensures nm.Missed(cur, segs) == nm.Missed(After(nm, cur, segs, i).value, segs[i..])
  {
    if i == 0 {
      assert segs[0..] == segs;
    } else {
      MissedAfter(nm, cur, segs, i - 1);
      assert segs[i - 1..][0] == segs[i - 1] && segs[i - 1..][1..] == segs[i..];
    }
  }

  lemma {:induction false} MissFound(nm: Names, cur: string, segs: seq<Seg>, m: Miss) returns (i: nat)
    requires nm.Missed(cur, segs) == Some(m)
    ensures MissAt(nm, cur, segs, m, i)
    decreases |segs|
  {
    if After(nm, cur, segs, 1).None? {
      i := 0;
    } else {
      var at := After(nm, cur, segs, 1).value;
      assert After(nm, cur, segs, 0) == Some(cur);
      var j := MissFound(nm, at, segs[1..], m);
      i := j + 1;
      AfterLater(nm, cur, segs, i);
    }
  }

  /** The walk misses (scope, name) exactly when some component called `name` is reached in
      that scope and is certainly not declared there. */
  lemma MissedIff(nm: Names, cur: string, segs: seq<Seg>, m: Miss)
    ensures nm.Missed(cur, segs) == Some(m) <==> exists i: nat :: MissAt(nm, cur, segs, m, i)
  {
    if nm.Missed(cur, segs) == Some(m) {
      var i := MissFound(nm, cur, segs, m);
    }
    forall i: nat | MissAt(nm, cur, segs, m, i) ensures nm.Missed(cur, segs) == Some(m) {
      MissedAfter(nm, cur, segs, i);
    }
  }

  /** No name of the tables is `path` or continues it after a dot. */
  ghost predicate NamesNothing(nm: Names, path: string) {
    forall k :: k in nm.items || k in nm.insts ==> k != path && !StartsWith(k, path + ".")
  }

  /** A component without a select that is certainly not declared in `at`: no name of the
      tables is its path or continues its path after a dot. */
  lemma UndeclaredNamesNothing(nm: Names, at: string, seg: Seg)
    requires nm.Valid() && Undeclared(nm, at, seg) && seg.sel == Some("")
    ensures NamesNothing(nm, Join(at, seg.name))
  {
    var path := Join(at, seg.name);
    assert path + "" == path;
    UnderIff(nm, path + ".");
  }

  /** An error names a component of the reference that is looked up below the nearest level at
      which the head resolves, in a scope whose declarations are all known, and that names
      nothing there. */
  lemma ResolvedErrorIsReal(nm: Names, scope: string, segs: seq<Seg>, m: Miss)
    requires nm.Valid() && segs != [] && nm.Resolved(scope, segs) == Some(m)
    ensures nm.StartOf(scope, segs).Some?
    ensures var (from, rest) := nm.StartOf(scope, segs).value;
      exists i: nat :: MissAt(nm, from, rest, m, i) && (rest[i].sel == Some("") ==> NamesNothing(nm, Join(m.scope, m.name)))
  {
    var (from, rest) := nm.StartOf(scope, segs).value;
    var i := MissFound(nm, from, rest, m);
    if rest[i].sel == Some("") {
      UndeclaredNamesNothing(nm, m.scope, rest[i]);
    }
  }

  // ---------------------------------------------------------------- what is certainly not declared

  /** A name of the tables continues `p`. */
  ghost predicate Continued(nm: Names, p: string) {
    exists k :: (k in nm.items || k in nm.insts) && StartsWith(k, p)
  }

  /** `key` is the name of an instance, of a generate or named block, or of something with
      names behind a dot. */
  ghost predicate HoldsNames(nm: Names, key: string) {
    key in nm.insts || key in nm.blocks || key in nm.genblocks || Continued(nm, key + ".")
  }

  ghost predicate Declared(nm: Names, key: string) {
    key in nm.items || key in nm.elided
  }

  /** Nothing in the tables answers to `seg` in scope `at`: with a literal select (or none, the
      empty one) no declaration of the bare name or of the selected one, no scope and no alias
      of the selected one; otherwise no declaration and nothing with a select behind it. The
      placeholder of a generate block is no declaration. */
  ghost predicate Unknown(nm: Names, at: string, seg: Seg) {
    var path := Join(at, seg.name);
    match seg.sel
    case Some(sel) =>
      && !HoldsNames(nm, path + sel) && (path + sel in nm.aliases ==> nm.aliases[path + sel] == path + sel)
      && (path in nm.genblocks || (!Declared(nm, path) && !Declared(nm, path + sel)))
    case None => !Continued(nm, path + "[") && (path in nm.genblocks || !Declared(nm, path))
  }

  /** The definition that the scope's text comes from has `name` among the members that the tables
      keep under other keys. */
  ghost predicate OtherwiseKept(nm: Names, at: string, name: string) {
    var def := nm.OwnerOf(at);
    def in nm.members && name in nm.members[def]
  }

  lemma ScopeIff(nm: Names, key: string)
    requires nm.Valid()
    ensures nm.IsScope(key) <==> HoldsNames(nm, key)
  {
    UnderIff(nm, key + ".");
  }

  /** A component is missing exactly when nothing answers to it. */
  lemma MissingIff(nm: Names, at: string, seg: Seg)
    requires nm.Valid()
    ensures nm.StepAt(at, seg).Missing? <==> Unknown(nm, at, seg)
  {
    var path := Join(at, seg.name);
    UnderIff(nm, path + "[");
    if seg.sel.Some? {
      ScopeIff(nm, path + seg.sel.value);
      assert seg.sel.value == "" ==> path + seg.sel.value == path;
    }
  }

  /** A component leads down exactly when its selected name is an instance, an alias, or a scope
      that no declaration hides; and it leads to that name, or to what an alias stands for. */
  lemma LeadsDownIff(nm: Names, at: string, seg: Seg)
    requires nm.Valid()
    ensures nm.StepAt(at, seg).Scope? <==>
      seg.sel.Some? &&
      var path := Join(at, seg.name);
      var key := path + seg.sel.value;
      key in nm.insts || (key in nm.aliases && nm.aliases[key] != key)
      || (HoldsNames(nm, key) && (path in nm.genblocks || (!Declared(nm, path) && !Declared(nm, key))))
    ensures nm.StepAt(at, seg).Scope? ==>
      var key := Join(at, seg.name) + seg.sel.value;
      nm.StepAt(at, seg).path == if key in nm.insts || key !in nm.aliases then key else nm.aliases[key]
  {
    if seg.sel.Some? {
      var path := Join(at, seg.name);
      ScopeIff(nm, path + seg.sel.value);
      assert seg.sel.value == "" ==> path + seg.sel.value == path;
    }
  }

  /** In a scope whose every declaration is in the tables, a component is certainly not declared
      if and only if nothing answers to it, it is no implicit block name, and the definition
      does not keep it under another key. */
  lemma UndeclaredIff(nm: Names, at: string, seg: Seg)
    requires nm.Valid()
    ensures Undeclared(nm, at, seg) <==>
      Unknown(nm, at, seg) && !Implicit(seg.name) && !OtherwiseKept(nm, at, seg.name) && nm.Closed(at)
  {
    MissingIff(nm, at, seg);
  }

  /** Without a select: no declaration, elided port, block, generate block or instance has the
      path, no name continues it after a dot, and no alias stands for something else. */
  lemma UnknownPlain(nm: Names, at: string, name: string)
    ensures var path := Join(at, name);
      Unknown(nm, at, Seg(name, Some(""))) <==>
      && path !in nm.items && path !in nm.elided && path !in nm.insts && path !in nm.blocks && path !in nm.genblocks
      && (forall k :: k in nm.items || k in nm.insts ==> !StartsWith(k, path + "."))
      && (path in nm.aliases ==> nm.aliases[path] == path)
  {
    var path := Join(at, name);
    assert path + "" == path;
  }

  /** Component `i` is reached in the scope of `m`, and it is certainly not declared there. */
  ghost predicate ReachesUnknown(nm: Names, from: string, segs: seq<Seg>, m: Miss, i: nat) {
    && i < |segs| && After(nm, from, segs, i) == Some(m.scope) && segs[i].name == m.name
    && Unknown(nm, m.scope, segs[i]) && !Implicit(m.name) && !OtherwiseKept(nm, m.scope, m.name) && nm.Closed(m.scope)
  }

  /** The reference is an error, naming that scope and component, if and only if the walk below
      the head reaches one that is certainly not declared. */
  lemma ResolvedIff(nm: Names, scope: string, segs: seq<Seg>, m: Miss)
    requires nm.Valid() && segs != []
    ensures nm.Resolved(scope, segs) == Some(m) <==>
      nm.StartOf(scope, segs).Some? &&
      exists i: nat :: ReachesUnknown(nm, nm.StartOf(scope, segs).value.0, nm.StartOf(scope, segs).value.1, m, i)
  {
    if nm.StartOf(scope, segs).Some? {
      var (from, rest) := nm.StartOf(scope, segs).value;
      MissedIff(nm, from, rest, m);
      forall i: nat ensures MissAt(nm, from, rest, m, i) <==> ReachesUnknown(nm, from, rest, m, i) {
        if i < |rest| { UndeclaredIff(nm, m.scope, rest[i]); }
      }
    }
  }

  // ---------------------------------------------------------------- closed scopes and owners

  lemma {:induction false} LeafIff(s: string, c: string)
    requires '.' !in c
    ensures Leaf(s) == c <==> s == c || exists p :: s == p + "." + c
  {
    forall p | s == p + "." + c ensures Leaf(s) == c {
      LastDotOf(p, c);
      assert s[|p|] == '.';
    }
    if '.' in s {
      LastDotIs(s);
      var i := LastDot(s);
      assert s == s[..i] + "." + s[i + 1..];
    }
  }

  lemma {:induction false} LastDotIs(s: string)
    requires '.' in s
    ensures s[LastDot(s)] == '.'
  {
    if s[|s| - 1] != '.' {
      assert s == s[..|s| - 1] + [s[|s| - 1]];
      LastDotIs(s[..|s| - 1]);
    }
  }

  lemma {:induction false} BracketOf(name: string, sel: string)
    requires '[' !in name && (sel == "" || sel[0] == '[')
    ensures UpToBracket(name + sel) == name
  {
    if name != "" {
      BracketOf(name[1..], sel);
      assert (name + sel)[1..] == name[1..] + sel;
    } else {
      assert name + sel == sel;
    }
  }

  lemma ImplicitIff(name: string)
    ensures Implicit(name) <==> exists n :: n != "" && (forall c :: c in n ==> c in "0123456789") && name == "genblk" + n
  {
    if Implicit(name) {
      var n := name[6..];
      assert name == "genblk" + n;
      forall c | c in n ensures c in "0123456789" {
        DigitIs(c);
      }
    }
    forall n | n != "" && (forall c :: c in n ==> c in "0123456789") && name == "genblk" + n ensures Implicit(name) {
      assert name[6..] == n && name[..6] == "genblk";
      forall k | 0 <= k < |n| ensures '0' <= n[k] <= '9' {
        DigitIs(n[k]);
      }
    }
  }

  lemma DigitIs(c: char)
    ensures '0' <= c <= '9' <==> c in "0123456789"
  {
    if '0' <= c <= '9' {
      assert c == "0123456789"[c as int - '0' as int];
    }
  }

  /** The top and every instance are closed. */
  lemma InstancesAreClosed(nm: Names, n: string)
    requires n == "" || n in nm.insts
    ensures nm.Closed(n)
  {
  }

  /** A block is closed exactly when its label is a generate label or an implicit block name,
      and it is neither a value nor a named block. */
  lemma ClosedBlockIff(nm: Names, at: string, block: string, sel: string)
    requires '.' !in block + sel && '[' !in block && (sel == "" || sel[0] == '[')
    requires Join(at, block + sel) != "" && Join(at, block + sel) !in nm.insts
    ensures var n := Join(at, block + sel);
      nm.Closed(n) <==>
        n !in nm.blocks && (n in nm.genblocks || !Declared(nm, n)) && (block in nm.gens || Implicit(block))
  {
    LeafIff(Join(at, block + sel), block + sel);
    if at != "" { assert Join(at, block + sel) == at + "." + (block + sel); }
    BracketOf(block, sel);
  }

  /** The owner is the definition of the nearest enclosing instance; without one, the top. */
  lemma {:induction false} OwnerIs(nm: Names, scope: string, i: nat)
    requires i < |nm.Levels(scope)| && nm.Levels(scope)[i] in nm.insts
    requires forall j :: 0 <= j < i ==> nm.Levels(scope)[j] !in nm.insts
    ensures nm.OwnerOf(scope) == nm.insts[nm.Levels(scope)[i]]
    decreases |scope|
  {
    if i > 0 {
      var rest := nm.Levels(Parent(scope).value);
      assert nm.Levels(scope) == [scope] + rest && nm.Levels(scope)[0] == scope;
      forall j | 0 <= j < i - 1 ensures rest[j] !in nm.insts { assert rest[j] == nm.Levels(scope)[j + 1]; }
      OwnerIs(nm, Parent(scope).value, i - 1);
    }
  }

  lemma {:induction false} OwnerIsTop(nm: Names, scope: string)
    requires forall j :: 0 <= j < |nm.Levels(scope)| ==> nm.Levels(scope)[j] !in nm.insts
    ensures nm.OwnerOf(scope) == nm.top
    decreases |scope|
  {
    assert nm.Levels(scope)[0] == scope;
    if Parent(scope).Some? {
      var rest := nm.Levels(Parent(scope).value);
      forall j | 0 <= j < |rest| ensures rest[j] !in nm.insts { assert rest[j] == nm.Levels(scope)[j + 1]; }
      OwnerIsTop(nm, Parent(scope).value);
    }
  }

  // ---------------------------------------------------------------- heads

  /** A head that nothing answers to at level `l` resolves there exactly by the name of the top,
      at the top, and else as the last component of `l` or the definition of its instance. */
  lemma HeadMissingIff(nm: Names, l: string, head: Seg)
    requires nm.Valid() && '.' !in head.name && (head.sel.Some? ==> '.' !in head.sel.value)
    ensures nm.HeadAt(l, head).Missing? <==>
      && Unknown(nm, l, head)
      && !(l == "" && head.name == nm.top)
      && !(l != "" && l in nm.insts && nm.insts[l] == head.name)
      && (l != "" && head.sel.Some? ==>
            var c := head.name + head.sel.value;
            l != c && forall p :: l != p + "." + c)
  {
    MissingIff(nm, l, head);
    if head.sel.Some? { LeafIff(l, head.name + head.sel.value); }
  }

  /** In those cases the walk goes on from the top, or from `l` itself. */
  lemma HeadLeadsTo(nm: Names, l: string, head: Seg)
    requires nm.StepAt(l, head).Missing? && !nm.HeadAt(l, head).Missing?
    ensures nm.HeadAt(l, head) == Scope(l)
  {
  }

  /** `$root` starts at the top, whose own name may follow. */
  lemma FromRoot(nm: Names, scope: string, dollar: Seg, next: Seg, rest: seq<Seg>)
    requires dollar.name == "$root"
    ensures nm.Resolved(scope, [dollar, next] + rest) == nm.Missed("", if next.name == nm.top then rest else [next] + rest)
    ensures nm.Resolved(scope, [dollar]) == None
  {
    var segs := [dollar, next] + rest;
    assert segs[0] == dollar && segs[1] == next && segs[2..] == rest && segs[1..] == [next] + rest;
  }

  /** What is no hierarchical name is never an error, and neither is a head that resolves nowhere
      or to a declaration. */
  lemma SilentHeads(nm: Names, scope: string, segs: seq<Seg>)
    requires segs != [] && segs[0].name != "$root"
    ensures segs[0].name in nm.opaqueNames + {"this", "super", "local", "std"} || StartsWith(segs[0].name, "$") ==> nm.Resolved(scope, segs) == None
    ensures (forall i :: 0 <= i < |nm.Levels(scope)| ==> nm.HeadAt(nm.Levels(scope)[i], segs[0]).Missing?) ==> nm.Resolved(scope, segs) == None
    ensures nm.StepAt(scope, segs[0]).Item? ==> nm.Resolved(scope, segs) == None
  {
    NearestLevel(nm, nm.Levels(scope), segs[0]);
    LevelsAreParents(nm, scope, 0);
  }
}
