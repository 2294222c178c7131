/** Scopes whose re-issued initializers are not enough, or run in the wrong place. */
module InitExamples {
  import opened Results
  import opened StaticInit
  import opened InitRuns
  import opened InitLimits
  import opened InitOrder
  import InitBlocks

  /** A dotted name reads the variable it starts with, and `$urandom` assigns its argument. */
  const NAMES := Names(
    (rooted: bool, path: Path) => if path == [] then path else [path[0]],
    (name: string, k: nat) => name == "$urandom" && k == 0,
    (name: string) => {},
    (name: string) => {})

  /** `$urandom` yields 5, and adds one to its argument. */
  const SIMULATOR := Semantics(NAMES,
    (rooted: bool, path: Path, v: int, vs: seq<int>) => v,
    (op: string, vs: seq<int>) => 0,
    (op: string, v: int) => None,
    (v: int) => None,
    (name: string, vs: seq<int>, w: int) => (5, w),
    (name: string, vs: seq<int>, s: Store, w: int) => (0, w),
    (name: string, vs: seq<int>, w: int, p: Path, v: int) => Some(v + 1),
    (name: string, vs: seq<int>, s: Store, w: int, p: Path, v: int) => None)

  const WITH_P := Scope("", {"P"})

  const READS_S := Decl("u", Ident(false, ["s", "P"], []))

  lemma MemberValue(s: Store, w: int)
    ensures Eval(SIMULATOR, READS_S.init, s, w) == Outcome(Look(s, ["s"]), s, w)
    ensures Mentions(NAMES, READS_S.init) == {["s"]} && SeenBy(NAMES, READS_S.init) == {} && Writes(NAMES, READS_S.init) == {}
  {
    var vs := EvalFrom(SIMULATOR, READS_S.init, 0, s, w);
    assert vs == Values([], s, w);
    assert Base(NAMES, false, ["s", "P"]) == ["s"];
    assert Stored(SIMULATOR, READS_S.init, vs) == s;
  }

  lemma Keys()
    ensures ["s"] != ["u"] && ["s"] != ["r"] && ["r"] != ["u"]
  {
    assert ["s"][0] != ["u"][0] && ["s"][0] != ["r"][0] && ["r"][0] != ["u"][0];
  }

  // `st s = $urandom; int u = s.P;`, where a parameter is called P too: elaboration folds `u`
  // for the last segment of its dotted name, and the fixpoint does not see that it reads `s`.
  const MEMBER: seq<Decl> := [Decl("s", SystemCall("$urandom", [])), READS_S]
  const MEMBER_STORE: Store := map[["s"] := 0, ["u"] := 0]

  lemma MemberSet()
    ensures HasSeed(MEMBER) && Reissued(WITH_P, MEMBER, {"s"})
  {
    assert Parts(MEMBER[0].init) == [] == Parts(MEMBER[1].init);
    assert BareReads(MEMBER[0].init) == {} == BareReads(MEMBER[1].init);
    assert Seed(MEMBER[0]) && !Seed(MEMBER[1]);
    assert Least(MEMBER, {"s"});
    assert Folds(WITH_P, MEMBER[0].init) && Folds(WITH_P, MEMBER[1].init);
    assert Unfolded(WITH_P, MEMBER) == {};
    assert {"s"} + {} == {"s"};
  }

  lemma DrawnValue(s: Store, w: int)
    ensures Eval(SIMULATOR, SystemCall("$urandom", []), s, w) == Outcome(5, s, w)
  {
    var e := SystemCall("$urandom", []);
    var vs := EvalFrom(SIMULATOR, e, 0, s, w);
    assert vs == Values([], s, w) && SimtimeName("$urandom");
    assert Outs(NAMES, e) == {};
    assert Stored(SIMULATOR, e, vs) == s;
  }

  /** There, the emitted assignments leave `u` at its folded 0 although every initializer run
      in order makes it 5. */
  lemma MemberReaderStale()
    ensures HasSeed(MEMBER) && Reissued(WITH_P, MEMBER, {"s"})
    ensures FoldedRight(SIMULATOR, MEMBER, {"s"}, MEMBER_STORE, 0)
    ensures Look(Run(SIMULATOR, MEMBER, MEMBER_STORE, 0).0, ["u"]) == 5
    ensures Look(Run(SIMULATOR, Emitted(MEMBER, {"s"}), MEMBER_STORE, 0).0, ["u"]) == 0
  {
    MemberSet();
    MemberValue(MEMBER_STORE, 0);
    MemberValue(MEMBER_STORE[["s"] := 5], 0);
    DrawnValue(MEMBER_STORE, 0);
    Keys();
    hide Eval, Unfolded, Least;
    assert MEMBER == [MEMBER[0]] + ([READS_S] + []);
    RunOne(SIMULATOR, MEMBER[0], [READS_S] + [], MEMBER_STORE, 0);
    RunOne(SIMULATOR, READS_S, [], MEMBER_STORE[["s"] := 5], 0);
    EmittedOne(MEMBER[0], [READS_S] + [], {"s"});
    EmittedOne(READS_S, [], {"s"});
    EmittedNone({"s"});
    RunOne(SIMULATOR, MEMBER[0], [], MEMBER_STORE, 0);
  }

  // `st s = 5; int r = $urandom(s); int u = s.P;`, where a parameter is called P too: only `r`
  // runs again, and nothing that is left out reads it, but it assigns the `s` that `u` reads.
  const DRAW := SystemCall("$urandom", [Ident(false, ["s"], [])])
  const SEEDED: seq<Decl> := [Decl("s", Literal(5)), Decl("r", DRAW), READS_S]
  const SEEDED_STORE: Store := map[["s"] := 5, ["r"] := 0, ["u"] := 5]

  lemma SeededSet()
    ensures HasSeed(SEEDED) && Reissued(WITH_P, SEEDED, {"r"})
  {
    assert Parts(SEEDED[0].init) == [] == Parts(READS_S.init) && Parts(DRAW) == [Ident(false, ["s"], [])];
    assert Parts(Parts(DRAW)[0]) == [];
    assert BareReads(SEEDED[0].init) == {} == BareReads(READS_S.init);
    assert SimtimeName("$urandom") && !Seed(SEEDED[0]) && Seed(SEEDED[1]) && !Seed(READS_S);
    assert Least(SEEDED, {"r"});
    SeededFolds();
    assert {"r"} + {"r"} == {"r"};
  }

  lemma SeededFolds()
    ensures Unfolded(WITH_P, SEEDED) == {"r"}
  {
    assert Parts(DRAW)[0] == Ident(false, ["s"], []);
    assert !Folds(WITH_P, Parts(DRAW)[0]);
    assert !Folds(WITH_P, DRAW) && Folds(WITH_P, READS_S.init) && Folds(WITH_P, SEEDED[0].init);
    assert SEEDED[1].name == "r";
  }

  lemma SeedValue(s: Store, w: int)
    requires ["s"] in s
    ensures Eval(SIMULATOR, DRAW, s, w) == Outcome(5, s[["s"] := s[["s"]] + 1], w)
  {
    var arg := Ident(false, ["s"], []);
    assert EvalFrom(SIMULATOR, arg, 0, s, w) == Values([], s, w);
    assert Stored(SIMULATOR, arg, Values([], s, w)) == s;
    assert Eval(SIMULATOR, arg, s, w) == Outcome(s[["s"]], s, w);
    assert Parts(DRAW)[0] == arg;
    var vs := EvalFrom(SIMULATOR, DRAW, 0, s, w);
    assert EvalFrom(SIMULATOR, DRAW, 1, s, w) == Values([], s, w);
    assert vs == Values([s[["s"]]] + [], s, w);
    assert Tag(DRAW) == "$urandom" && NAMES.out("$urandom", 0) && Targets(NAMES, arg) == {["s"]};
    assert ["s"] in Outs(NAMES, DRAW);
    assert Outs(NAMES, DRAW) == {["s"]};
    assert SimtimeName("$urandom");
  }

  const DRAWN: Store := map[["s"] := 6, ["r"] := 5, ["u"] := 5]

  lemma SeededRuns()
    ensures Look(Run(SIMULATOR, SEEDED, SEEDED_STORE, 0).0, ["u"]) == 6
    ensures Run(SIMULATOR, [SEEDED[1]], SEEDED_STORE, 0) == (DRAWN, 0)
  {
    MemberValue(DRAWN, 0);
    SeedValue(SEEDED_STORE, 0);
    Keys();
    assert Eval(SIMULATOR, Literal(5), SEEDED_STORE, 0) == Outcome(5, SEEDED_STORE, 0);
    hide Eval;
    assert SEEDED == [SEEDED[0]] + ([SEEDED[1]] + ([READS_S] + [])) && [SEEDED[1]] == [SEEDED[1]] + [];
    assert SEEDED_STORE[["s"] := 5] == SEEDED_STORE && SEEDED_STORE[["s"] := 6][["r"] := 5] == DRAWN;
    RunOne(SIMULATOR, SEEDED[0], [SEEDED[1]] + ([READS_S] + []), SEEDED_STORE, 0);
    RunOne(SIMULATOR, SEEDED[1], [READS_S] + [], SEEDED_STORE, 0);
    RunOne(SIMULATOR, READS_S, [], DRAWN, 0);
    RunOne(SIMULATOR, SEEDED[1], [], SEEDED_STORE, 0);
  }

  lemma SeededEmitted()
    ensures Emitted(SEEDED, {"r"}) == [SEEDED[1]]
  {
    assert SEEDED == [SEEDED[0]] + ([SEEDED[1]] + ([READS_S] + []));
    EmittedOne(SEEDED[0], [SEEDED[1]] + ([READS_S] + []), {"r"});
    EmittedOne(SEEDED[1], [READS_S] + [], {"r"});
    EmittedOne(READS_S, [], {"r"});
    EmittedNone({"r"});
  }

  lemma SeededRight()
    ensures FoldedRight(SIMULATOR, SEEDED, {"r"}, SEEDED_STORE, 0)
  {
    MemberValue(SEEDED_STORE, 0);
    Keys();
    assert Eval(SIMULATOR, Literal(5), SEEDED_STORE, 0) == Outcome(5, SEEDED_STORE, 0);
    assert Look(SEEDED_STORE, ["s"]) == 5 == SEEDED_STORE[["u"]];
    hide Eval, Look;
    forall k | 0 <= k < |SEEDED| && SEEDED[k].name !in {"r"} ensures k == 0 || SEEDED[k] == READS_S {
    }
  }

  lemma SeededApart()
    ensures Mentions(NAMES, Literal(5)) + Mentions(NAMES, READS_S.init) !! KeysOf({"r"})
  {
    MemberValue(SEEDED_STORE, 0);
    assert Mentions(NAMES, Literal(5)) == {};
    hide Mentions;
    KeyOfName({"r"}, "s");
  }

  /** Every initializer in order makes `u` 6; the emitted assignment of `r` leaves it at 5. */
  lemma SeedReaderStale()
    ensures HasSeed(SEEDED) && Reissued(WITH_P, SEEDED, {"r"})
    ensures Mentions(NAMES, Literal(5)) + Mentions(NAMES, READS_S.init) !! KeysOf({"r"})
    ensures FoldedRight(SIMULATOR, SEEDED, {"r"}, SEEDED_STORE, 0)
    ensures Look(Run(SIMULATOR, SEEDED, SEEDED_STORE, 0).0, ["u"]) == 6
    ensures Look(Run(SIMULATOR, Emitted(SEEDED, {"r"}), SEEDED_STORE, 0).0, ["u"]) == 5
  {
    SeededSet();
    SeededRuns();
    SeededEmitted();
    SeededRight();
    SeededApart();
    hide *;
    DrawnLook();
  }

  lemma DrawnLook()
    ensures Look(DRAWN, ["u"]) == 5
  {
    Keys();
  }

  // `int a[1] = '{3}; int u = $urandom_range(a[0]);`: `u` runs again, and the array, which is never
  // a candidate, is initialized behind it.
  const ELEMENT := Index(Ident(false, ["a"], []), Literal(0))
  const ARRAY := Decl("a", Concatenation([Literal(3)]))
  const RANGED := Decl("u", SystemCall("$urandom_range", [ELEMENT]))
  const ARRAYS: seq<Decl> := [ARRAY, RANGED]

  lemma TwoParts(e: Expr, a: Expr, b: Expr, p: Path)
    requires Parts(e) == [a, b] && !e.Ident? && !e.Call?
    ensures p in Mentions(NAMES, e) <==> p in Mentions(NAMES, a) || p in Mentions(NAMES, b)
  {
    hide Base;
    assert Parts(e)[0] == a && Parts(e)[1] == b;
  }

  lemma TwoPartsSee(e: Expr, a: Expr, b: Expr, p: Path)
    requires Parts(e) == [a, b] && !e.Ident? && !e.Call?
    ensures p in SeenBy(NAMES, e) <==> p in SeenBy(NAMES, a) || p in SeenBy(NAMES, b)
  {
    assert Parts(e)[0] == a && Parts(e)[1] == b;
  }

  lemma NameReads(n: string)
    ensures Mentions(NAMES, Ident(false, [n], [])) == {[n]} && SeenBy(NAMES, Ident(false, [n], [])) == {}
    ensures Mentions(NAMES, Literal(0)) == {} == SeenBy(NAMES, Literal(0))
  {
    assert Parts(Ident(false, [n], [])) == [] == Parts(Literal(0));
  }

  lemma ElementReads()
    ensures Mentions(NAMES, ELEMENT) == {["a"]} && SeenBy(NAMES, ELEMENT) == {}
  {
    hide Mentions, SeenBy;
    NameReads("a");
    forall p ensures (p in Mentions(NAMES, ELEMENT) <==> p == ["a"]) && p !in SeenBy(NAMES, ELEMENT) {
      TwoParts(ELEMENT, Ident(false, ["a"], []), Literal(0), p);
      TwoPartsSee(ELEMENT, Ident(false, ["a"], []), Literal(0), p);
    }
  }

  lemma RangedReads()
    ensures Mentions(NAMES, RANGED.init) == {["a"]} && SeenBy(NAMES, RANGED.init) == {}
  {
    ElementReads();
    assert Parts(RANGED.init) == [ELEMENT];
    assert Mentions(NAMES, Parts(RANGED.init)[0]) == {["a"]};
    assert SeenBy(NAMES, Parts(RANGED.init)[0]) == {};
  }

  lemma ArrayQuiet()
    ensures Mentions(NAMES, ARRAY.init) == {} && Quiet(NAMES, ARRAY.init)
  {
    assert Parts(ARRAY.init) == [Literal(3)] && Parts(Literal(3)) == [];
    assert Writes(NAMES, Literal(3)) == {} == Mentions(NAMES, Literal(3));
    assert Timeless(Literal(3));
  }

  lemma ArrayCandidates()
    ensures InitBlocks.Candidates(ARRAYS, {"a"}) == [RANGED]
  {
    assert NamesOf(ARRAYS) == {"a", "u"} by {
      assert ARRAYS[0].name == "a" && ARRAYS[1].name == "u";
    }
    assert {"a", "u"} - {"a"} == {"u"};
    assert ARRAYS == [ARRAY] + ([RANGED] + []);
    EmittedOne(ARRAY, [RANGED] + [], {"u"});
    EmittedOne(RANGED, [], {"u"});
    EmittedNone({"u"});
  }

  lemma RangedAgain()
    ensures HasSeed([RANGED]) && Reissued(WITH_P, [RANGED], {"u"})
  {
    assert SimtimeName("$urandom_range") && Seed([RANGED][0]);
    assert Least([RANGED], {"u"});
    assert Unfolded(WITH_P, [RANGED]) <= {"u"};
    assert {"u"} + Unfolded(WITH_P, [RANGED]) == {"u"};
  }

  lemma ArrayKept()
    ensures KeptApart(NAMES, ARRAYS, {"u"} + {"a"}) && MentionsEarlier(NAMES, ARRAYS) && DistinctNames(ARRAYS)
  {
    RangedReads();
    ArrayQuiet();
    forall p ensures p !in SeenBy(NAMES, ARRAY.init) {
      NoCallNothingSeen(NAMES, ARRAY.init, p);
    }
    assert ["a"][0] != ["u"][0];
    hide Mentions, SeenBy, Quiet;
    assert KeysFrom(ARRAYS, 1) == {["u"]} by { assert ARRAYS[1].name == "u"; }
  }

  /** The installed list draws `u` before the array has its value. */
  lemma ArrayReadEarly()
    ensures HasSeed(InitBlocks.Candidates(ARRAYS, {"a"})) && Reissued(WITH_P, InitBlocks.Candidates(ARRAYS, {"a"}), {"u"})
    ensures KeptApart(NAMES, ARRAYS, {"u"} + {"a"}) && !InstalledAgrees(NAMES, ARRAYS, {"u"}, {"a"})
  {
    ArrayCandidates();
    RangedAgain();
    ArrayKept();
    ArrayQuiet();
    RangedReads();
    hide Mentions, Quiet, KeptApart, InstalledAgrees, MentionsEarlier, Writes;
    assert ARRAYS[0].name == "a" && ARRAYS[1].name == "u";
    assert "a" in NamesOf(ARRAYS);
    assert SeedsIn(ARRAYS, {"u"} + {"a"});
    assert Setting(NAMES, ARRAYS, {"u"}, {"a"});
    assert !Separate(NAMES, ARRAYS[0], ARRAYS[1]);
    InstalledExact(NAMES, ARRAYS, {"u"}, {"a"});
  }
}
