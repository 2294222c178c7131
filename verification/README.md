# Verification of xezim's algorithmic cores

This project models the self-contained algorithms of the xezim repository in Dafny and proves what
they promise, for every input. `dafny verify dfyconfig.toml` checks all of it. Methods with loops,
arrays and classes follow the source where it works step by step; each is proved against a
specification function or property, and the lemmas say what that specification means.

| files | what they model |
|---|---|
| `SetCover.dfy` | the cost-weighted greedy partition of the test suite, with the harmonic bound on its running time |
| `Texts.dfy`, `Lexing.dfy`, `IntraDelay.dfy`, `DelayPass.dfy` | the intra-assignment delay pass: scanners, the specification of the rewriting, and the index loops that refine it |
| `DelayEvents.dfy`, `DelayForms.dfy` | what the written event calls say, as the simulator decodes them, and how the ordinary statements are written |
| `DelayTwice.dfy`, `DelayLimits.dfy`, `DelayLayout.dfy` | the pass on its own output, exactly where that changes nothing, lines and `` `define `` lines |
| `Words.dfy`, `Vectors.dfy` | C's 32-bit words and the bit and part selects of canonical DPI vectors |
| `OpenArrays.dfy`, `UserData.dfy` | open-array queries, element addresses and copies; the user-data list |
| `StaticInit.dfy`, `InitRuns.dfy`, `InitLimits.dfy` | which static initializers run again at time 0, what running them computes, and exactly when running only those is enough |
| `InitBlocks.dfy`, `InitOrder.dfy`, `InitExamples.dfy` | how the block list is rebuilt, exactly when its order is as good as declaration order, and scopes where either fails |
| `FlatNames.dfy`, `ScopeWalker.dfy` | resolution of hierarchical references and the collection of references under local scopes |
| `ParamCycle.dfy`, `EnumValues.dfy` | parameters that depend on themselves, and the values of enum members |
| `Reachable.dfy` | the files a top unit needs, and their extension from library text |
| `DoScripts.dfy` | the planner of `-do` scripts |
| `CacheKey.dfy` | the content hash of the design cache |
| `Results.dfy`, `Worklists.dfy` | the usual `Option` and `Result`; stacks and flag arrays seen as sets |

## What the proofs found

* The second run of the delay pass does change its own output for some sources: in `=#1(=#1-b;);` the
  parenthesised right-hand side reads as a statement of its own once it stands inside the marker call
  (`DelayLimits.SecondPassChanges`), and so does the unmatched bracket of the count in
  `=repeat(=#1b[)@e x;` (`DelayLimits.OpenCountChanges`). The comment at `src/lib.rs:1332-1336` that a
  rewritten delay is left alone holds, for sources whose rewritten tails have matching brackets, exactly
  when no marker call offers the second run a site (`DelayTwice.TwiceIsOnce`).
* The module comment of `src/intra_delay.rs` says that line numbers do not shift. That holds for the
  `#` and `##` forms; an event control loses every newline outside its count
  (`DelayLimits.EventLosesLine`). `DelayLayout.LineNumbersKept` says exactly how many lines are lost up
  to any point, and when none is.
* `svHigh - svLow + 1` is not `svSize` for a dimension that does not exist (`OpenArrays.SpanIsNotSize`);
  for every dimension of every header that the simulator builds it is (`OpenArrays.SpanOfBuilt`).
* Running only the re-issued initializers is not always enough: after `s = $urandom`, the folded
  `u = s.P`, where `P` is also a parameter, keeps a stale value (`InitExamples.MemberReaderStale`), and so
  it does after `s = 5` and `r = $urandom(s)`, because the call advances its seed
  (`InitExamples.SeedReaderStale`). `InitRuns.ClosedWhen` says when the set is closed under reads, and
  `InitLimits.ReissueExact` exactly when running it is always enough.
* Array initializers are never re-issued and run behind those that are, so a re-issued initializer may
  read an array that has no value yet (`InitExamples.ArrayReadEarly`); `InitBlocks.InstalledListExact` is
  the exact condition.
* With a repeated parameter name the cycle search follows only the last parameter of that name
  (`ParamCycle.ShadowedSelfReference`); `ParamCycle.SelfReferenceReported` is the exact condition.

## Model

| member | source | states |
|---|---|---|
| SetCover.GatherUniverse | scripts/analyze_test_coverage.py:280-284 | the loop's union is the set of all regions that some unit covers |
| SetCover.PickBest | scripts/analyze_test_coverage.py:298-314 | the unit chosen is the first of the remaining ones that no other beats by score and then by new regions; none exactly when no remaining unit adds a region |
| SetCover.Select | scripts/analyze_test_coverage.py:297-349 | every pick was best at its turn, each entry reports its unit's counts at its turn, core is the picks made while coverage was short of the target, and the rest is redundant in list order |
| SetCover.Partition | scripts/analyze_test_coverage.py:272-376 | an error exactly when no unit covers anything, otherwise the tiers described by `Partitioned` |
| SetCover.TiersUnique | scripts/analyze_test_coverage.py:272-376 | that description leaves exactly one result: two partitions of the same units and ratio are equal |
| SetCover.OneTierEach | scripts/analyze_test_coverage.py:291-349 | every unit is in exactly one tier, once |
| SetCover.NothingLost | scripts/analyze_test_coverage.py:316-349 | core and corner cover the whole universe, and every redundant unit is contained in it |
| SetCover.FreshAddsUp | scripts/analyze_test_coverage.py:331-343 | the new-region counts of the picks add up to the number of regions covered |
| SetCover.CoreShortest | scripts/analyze_test_coverage.py:295-349 | for a ratio of at most 1, core is the shortest selection prefix that reaches the truncated target |
| SetCover.HarmonicBound | scripts/analyze_test_coverage.py:288-349 | the selected units cost at most H(d) times any covering family, d being the largest region count of a unit and a cost its running time of at least 0.005 s |
| SetCover.HarmonicTimeBound | scripts/analyze_test_coverage.py:288-349 | in running times: core plus corner take at most H(d) times as long as any covering family, each unit counted for at least 0.005 s, and as measured if no unit is shorter |
| SetCover.CostMeans | scripts/analyze_test_coverage.py:307 | a unit costs its running time or 0.005, whichever is more |
| SetCover.BestRate | scripts/analyze_test_coverage.py:298-314 | the best unit adds at least as many new regions per second as any other, at the same rate more regions, and of those it is the earliest |
| SetCover.TargetMeans | scripts/analyze_test_coverage.py:294-295 | the target is the wanted number of regions cut off towards zero |
| SetCover.EntriesMean | scripts/analyze_test_coverage.py:331-343 | each entry has its unit's region count, and its running total is that of the entry before plus its new regions, the whole universe at the end |
| Lexing.SkipWsComments | src/intra_delay.rs:38-57 | stops at the end of the whitespace and comments that the independent lexer sees from there |
| Lexing.SkipString | src/intra_delay.rs:61-71 | stops behind the closing quote that no backslash escapes, or at the end of the text |
| Lexing.FindStmtSemi | src/intra_delay.rs:75-99 | the bracket-counting loop finds what the character-by-character reading finds |
| Lexing.FindExact | src/intra_delay.rs:75-99 | that is the first `;` outside strings and comments at bracket depth 0 with no bracket closing below depth 0 before it, if and only if |
| Lexing.RawExact | src/intra_delay.rs:121-141 | a bracketed control ends behind the first bracket that leaves none open, whatever the kinds, strings skipped, if and only if |
| Lexing.ParenExact | src/intra_delay.rs:305-322 | a repeat count ends behind the first parenthesis that leaves none open, and nothing but parentheses counts, if and only if |
| Lexing.DefineLineEnd | src/intra_delay.rs:103-111 | stops at the first newline that no backslash continues |
| DelayPass.ExtractDelayAndRhs | src/intra_delay.rs:117-156 | the ends of the delay and of the right-hand side are the specified ones; refused exactly when the specification refuses |
| DelayPass.ExtractOperand | src/intra_delay.rs:161-222 | edge, signal and end of an event control are the specified ones, and so are the refusals |
| DelayPass.ExtractRepeat | src/intra_delay.rs:305-334 | the count of a `repeat` control and the place of its `@` are the specified ones |
| DelayPass.Rewrite | src/intra_delay.rs:227-436 | the whole index loop, with its early return, computes the specified rewriting of the text |
| IntraDelay.PiecesAreSource | src/intra_delay.rs:241-436 | the pieces of the pass, copied characters and disjoint sites, put back together are the input: nothing is lost, and at a delay site only the `#` or `##` is replaced |
| IntraDelay.SiteText | src/intra_delay.rs:392-428 | a site's control and right-hand side are verbatim stretches of the text at that place, and a `;` follows them |
| DelayEvents.ScanFaithful | src/intra_delay.rs:161-222 | every event call of a text is written with the edge, signal and count of its control: a bare name means any edge; in parentheses the trimmed text is `posedge x`, `negedge x` or a signal; the count is 1 or the trimmed text between the parentheses of `repeat` |
| DelayEvents.EdgeSays | src/compiler/simulator/processes.rs:4005-4009 | the edge that the simulator decodes from the written code is the one that the event expression names |
| DelayForms.ExpressionTaken | src/intra_delay.rs:192-216 | an event expression is taken if and only if the signal that it names has only name characters and square brackets and is not empty, so no list is |
| DelayForms.DelayWritten | src/intra_delay.rs:392-428 | an assignment with a delay of one word becomes the delay call with that word and the value |
| DelayForms.CycleWritten | src/intra_delay.rs:392-428 | with `##` it becomes the cycle call |
| DelayForms.NamedEventWritten | src/intra_delay.rs:161-185 | an assignment behind `@` and a name waits once for any edge of that name |
| DelayForms.EdgeEventWritten | src/intra_delay.rs:186-222 | with a parenthesised event it waits for edge 1 if that says posedge, 2 if negedge, else 0, of the signal, which may have a select |
| DelayForms.OnlyAssignments | src/intra_delay.rs:279-301 | behind a name or closing bracket `=` and `<=` let a control follow, and no other operator that ends with `=` does |
| DelayForms.NeverEmpty | src/intra_delay.rs:150-155 | no statement with a blank right-hand side is rewritten |
| DelayForms.Characters | src/intra_delay.rs:133-146 | the characters of names, signals, blanks and brackets, listed |
| DelayTwice.TwiceIsOnce | src/lib.rs:1332-1344 | on the rewriting of a source whose rewritten tails have matching brackets the pass is the identity if and only if no written call, read by itself, offers it a site |
| DelayTwice.SemiFreeTwice | src/lib.rs:1332-1344 | in particular it is the identity when no written argument has a `;` in its code |
| DelayTwice.FixedIff | src/intra_delay.rs:227-436 | the pass leaves a text as it is exactly when it finds no site in it |
| DelayLimits.SecondPassChanges | src/lib.rs:1332-1344 | a concrete tidy source, with a call that offers a site, whose rewriting the second run changes |
| DelayLimits.OpenCountChanges | src/lib.rs:1332-1344 | another one, with no `;` in any argument and no site in any call read by itself, that is not tidy: a bracket of its repeat count is not closed |
| DelayLayout.LineNumbersKept | src/intra_delay.rs:227-436 | up to every point between two pieces the output has the lines of the input less those lost in event controls; none is gained, and none is lost if and only if every event control before has its newlines in its trimmed count |
| DelayLimits.EventLosesLine | src/intra_delay.rs:392-428 | a concrete text whose rewriting has one line fewer: a newline between `@` and the event |
| DelayLayout.DefineConfined | src/intra_delay.rs:247-252 | a site that starts in a `` `define `` line ends in it, continuation lines included |
| DelayLayout.NothingToDo | src/intra_delay.rs:228-230 | without `#` and `@` the rewriting is the text itself, so the early return is right |
| Words.FieldWritten | src/svdpi_shim.c:105-113 | a written bit field reads back as the source modulo 2^w |
| Words.FieldElsewhere | src/svdpi_shim.c:105-113 | a write leaves every field that does not overlap it as it was |
| Words.FieldChange | src/svdpi_shim.c:105-113 | a write changes the number by exactly 2^i times the change of the field |
| Vectors.GetBitselBit | src/svdpi_shim.c:61-63 | reads bit i of the number that the vector's words hold |
| Vectors.GetBitselLogic | src/svdpi_shim.c:65-69 | reads the four-state value at i of the two planes |
| Vectors.PutBitselBit | src/svdpi_shim.c:71-74 | the new number has bit i replaced by the low bit of the scalar, and no other bit changed |
| Vectors.PutBitselLogic | src/svdpi_shim.c:76-82 | the same on both planes, encoded as 0, 1, z, x |
| Vectors.GetPartselBit | src/svdpi_shim.c:85-89 | stores (V / 2^i) mod 2^w in the first word of the destination, which may be the source, and nothing else |
| Vectors.GetPartselLogic | src/svdpi_shim.c:91-99 | the same on both planes |
| Vectors.PutPartselBit | src/svdpi_shim.c:102-104 | replaces exactly the w bits from i, across word boundaries |
| Vectors.PutPartselLogic | src/svdpi_shim.c:106-113 | the same on both planes |
| Vectors.WordChanged | src/svdpi_shim.c:71-82 | changing one bit of one word changes exactly that bit of the vector's number |
| Vectors.ScalarWritten | src/svdpi_shim.c:65-82 | a scalar written at i is read back at i, a byte that is no scalar code as 0, and every other position keeps its value |
| Vectors.ScalarCode | src/svdpi_shim.c:65-82 | a scalar's code is its aval bit plus twice its bval bit, and a byte that is no code sets neither |
| Vectors.PartselScalars | src/svdpi_shim.c:65-99 | bit k of a fetched part select is the scalar the single-bit read finds at i + k |
| Vectors.PartselWritten | src/svdpi_shim.c:65-113 | after a part-select write each position holds the source's scalar inside the range and its old one outside |
| Vectors.PartselByScalars | src/svdpi_shim.c:102-113 | a part-select write is the write of all its bits but the last, followed by a single-bit write |
| OpenArrays.SpanIsSize | src/svdpi_shim.c:120-173 | high - low + 1 is the size if and only if the dimension exists and, for an empty array, ends one below its left bound |
| OpenArrays.BuiltIsWellFormed | src/compiler/simulator/dpi_imports.rs:834-957 | a header built for a dimension list and an element count that the simulator can collect, the empty array included, is well formed |
| OpenArrays.SpanOfBuilt | src/compiler/simulator/dpi_imports.rs:834-957 | for every well-formed header, high - low + 1 is the size of exactly the dimensions that exist |
| OpenArrays.SpanIsNotSize | src/svdpi_shim.c:142-173 | a missing dimension of an ordinary array, whose three queries all answer 0 |
| OpenArrays.IncrementLeadsAcross | src/svdpi_shim.c:134-173 | from the left bound, in the direction the increment gives, the right bound is reached after `size` positions |
| OpenArrays.BuiltQueries | src/svdpi_shim.c:120-173 | the six queries of a built array answer with the declared bounds of each unpacked dimension, with width - 1 down to 0 for dimension 0 of a packed element, and with nothing elsewhere; an empty array has size 0 |
| OpenArrays.Elem | src/svdpi_shim.c:187-201 | null exactly when the array is empty, the arity is wrong or an index is out of range; otherwise the offset of the tuple's element |
| OpenArrays.InsideData | src/svdpi_shim.c:190-201 | every element with an address has a number below the count and lies wholly inside the data |
| OpenArrays.OneToOne | src/svdpi_shim.c:187-201 | distinct index tuples address distinct elements |
| OpenArrays.Onto | src/svdpi_shim.c:187-201 | every number below the element count is addressed by some in-range tuple |
| OpenArrays.RankOrder | src/svdpi_shim.c:187-201 | addresses grow exactly as tuples do in ascending lexicographic order, whatever the direction of the bounds |
| OpenArrays.NextElement | src/svdpi_shim.c:187-201 | the next tuple addresses the next element, and only the next tuple does |
| OpenArrays.PutElem | src/svdpi_shim.c:235-250 | the copied bytes from the addressed element on become the source's and every other byte stays; without an address nothing changes |
| OpenArrays.GetElem | src/svdpi_shim.c:235-253 | the destination receives as many bytes as are copied, from the addressed element on; without an address nothing changes |
| OpenArrays.ElementCopied | src/svdpi_shim.c:235-253 | what is copied into the element at one tuple reads back there, and every other element reads as before, whatever the element size |
| OpenArrays.CopyFits | src/svdpi_shim.c:203-253 | a copy of two-state words fits every element the simulator lays out, one of four-state words exactly those with four-state words or less than a word |
| OpenArrays.CopyMovesAll | src/svdpi_shim.c:203-253 | a copy of words of the packed element's own kind moves all of its bytes |
| OpenArrays.RoomyInMemory | src/svdpi_shim.c:235-253 | a copy that fits the elements stays inside the data wherever it goes |
| UserData.Table.Put | src/svdpi_shim.c:406-422 | refuses null arguments and a failed allocation of a new entry, otherwise the pair's data is the new one and no other pair changes |
| UserData.Table.Get | src/svdpi_shim.c:424-429 | answers the data last put for the pair, null if there is none |
| StaticInit.Fixpoint | src/lib.rs:669-691 | the rounds end, with the least set that contains the seeds and every declaration reading a member |
| StaticInit.Reissue | src/lib.rs:642-764 | nothing without a seed; otherwise that set and the never-folded declarations, emitted in declaration order, with their flat names |
| StaticInit.FoldsIff | src/lib.rs:525-575 | an expression is folded if and only if nothing inside that elaboration looks at is a slice, a user call or an identifier whose last segment (or base, in a path) is no parameter; selects of identifiers and member accesses with a parameter's name are not looked into |
| StaticInit.CallsSimtimeIff | src/lib.rs:481-518 | a declaration is a seed if and only if a system call other than the listed ones is somewhere inside |
| StaticInit.BareReadsIff | src/lib.rs:602-611 | a name is read if and only if an unrooted one-segment identifier of that name is somewhere inside |
| StaticInit.PartsAreAll | src/type_lint.rs:3484-3561 | the visited parts of an expression are all of it |
| InitRuns.EvalLocal | src/lib.rs:602-611 | evaluation depends only on the variables an expression reads, a dotted name reading the variable it is a part of: where others differ, they are all that differs afterwards |
| InitRuns.EvalWrites | src/compiler/simulator/aggregate_expressions.rs:3573-3652 | and changes only the arguments and variables that its calls and increments assign, such as the seed of `$urandom(seed)` |
| InitRuns.EvalTimeless | src/lib.rs:501-518 | an expression without simulation-time and user calls neither reads nor changes the simulation state |
| InitRuns.ClosedWhen | src/lib.rs:679-698 | an initializer left out reads no member of the set exactly when it reads no never-folded name and no member through a dotted or rooted name |
| InitRuns.PlainIsApart | src/lib.rs:525-575 | if no declared name is a parameter, nothing folds by the last part of its name alone and effects are on declared variables before the initializer, what is left out is kept apart |
| InitRuns.ReissueIsEnough | src/lib.rs:654-764 | where what is left out is kept apart, the emitted assignments, run over the elaborated variables, end in the same variables and simulation state as every initializer run in order |
| InitLimits.ReissueExact | src/lib.rs:654-764 | and only there: the two runs agree for all operators, functions and values if and only if no initializer left out calls a subroutine or assigns anything, reads a re-issued variable or one that an earlier re-issued initializer may assign, or has its own variable assigned so, and no re-issued one calls a subroutine that reads a variable declared later |
| InitExamples.MemberReaderStale | src/lib.rs:602-611 | `s = $urandom` and `u = s.P`: a concrete scope in which the folded `u` keeps a stale value |
| InitExamples.SeedReaderStale | src/compiler/simulator/aggregate_expressions.rs:3573-3582 | `s = 5`, `r = $urandom(s)` and `u = s.P`: another one, in which nothing left out reads a re-issued variable |
| InitBlocks.RemoveReplaced | src/lib.rs:926-952 | the edited statement and the answer are those of the specified pruning |
| InitBlocks.PrunedLeaves | src/lib.rs:926-952 | pruning removes exactly the assignments to replaced names at any depth, keeps the rest in order, and drops a statement exactly when nothing of it is left |
| InitBlocks.Elaborated.Install | src/lib.rs:953-973 | the new block list is the issued blocks and then what is kept of the old ones, with the index list rebuilt |
| InitBlocks.OwnersFollow | src/lib.rs:955-971 | a pair (p, owner) is in the new index list exactly when a block of that owner was kept and stands, unchanged, at p |
| InitBlocks.InstalledWork | src/lib.rs:921-973 | the installed list runs the issued statements first and then, in their old order, all old ones that are not replaced |
| InitBlocks.NoneLeft | src/lib.rs:926-969 | no assignment to a replaced name is left in a block that no package variable owns |
| InitOrder.InstalledIsEnough | src/lib.rs:953-973 | the installed order, re-issued declarations before the array initializers, ends where declaration order ends if each array is separate from all re-issued declarations behind it, whatever the arrays' initializers do |
| InitBlocks.InstalledListExact | src/lib.rs:617-619 | the list that the edit leaves is that order, and for arrays whose initializers only compute their value it always ends where every initializer in declaration order ends if and only if no re-issued initializer reads or assigns an array in front of it or assigns what that array reads |
| InitExamples.ArrayReadEarly | src/lib.rs:617-619 | `a = '{3}` and `u = $urandom_range(a[0])`: a concrete scope in which that order is wrong |
| FlatNames.UnderIff | src/hier_ref_lint.rs:213-217 | the binary-search prefix query is true exactly when some flat name or instance path has the prefix |
| FlatNames.Names.Owner | src/hier_ref_lint.rs:308-319 | the loop ends at the nearest enclosing instance, or at the top definition |
| FlatNames.Names.Walk | src/hier_ref_lint.rs:333-357 | the loop misses what the recursive definition misses |
| FlatNames.MissedIff | src/hier_ref_lint.rs:333-357 | a walk misses (scope, name) exactly when some component of that name is reached in that scope and is certainly not declared there |
| FlatNames.Names.Resolve | src/hier_ref_lint.rs:363-409 | the upward loop ends for every scope and reference and answers what the definition over the list of levels answers |
| FlatNames.NearestLevel | src/hier_ref_lint.rs:383-407 | the level taken is the nearest at which the head resolves |
| FlatNames.LevelsAreParents | src/hier_ref_lint.rs:461-466 | the levels are the scope, its parent and so on up to the top |
| FlatNames.ParentOfChild | src/hier_ref_lint.rs:461-473 | the parent of a joined name is the scope it was joined to |
| FlatNames.ResolvedErrorIsReal | src/hier_ref_lint.rs:253-409 | an error names a component reached in a closed scope that declares nothing of that name: without a select, no table entry is its path or continues it after a dot |
| FlatNames.ResolvedIff | src/hier_ref_lint.rs:333-409 | a reference is an error with that scope and name if and only if the walk below its head reaches a component that nothing answers to, of no implicit block name and not kept elsewhere, in that closed scope |
| FlatNames.UndeclaredIff | src/hier_ref_lint.rs:333-357 | a component is certainly not declared under exactly these four conditions |
| FlatNames.UnknownPlain | src/hier_ref_lint.rs:203-304 | nothing answers to an unselected component if and only if no declaration, elided port, instance, block or generate block has its path, no flat name continues it after a dot, and no alias stands for another name |
| FlatNames.MissingIff | src/hier_ref_lint.rs:253-304 | the step misses exactly the components that nothing answers to, selected or not |
| FlatNames.LeadsDownIff | src/hier_ref_lint.rs:253-304 | the step goes down exactly into instances, aliases and scopes that no declaration hides, and where it goes |
| FlatNames.ClosedBlockIff | src/hier_ref_lint.rs:240-250 | a block is closed if and only if its label is a generate label or an implicit one and it is neither a value nor a named block |
| FlatNames.OwnerIs | src/hier_ref_lint.rs:308-319 | the owner is the definition of the nearest level that is an instance |
| FlatNames.HeadMissingIff | src/hier_ref_lint.rs:383-407 | a head misses at a level if and only if nothing answers to it there and it is neither the top's name at the top nor the level's own last component or definition |
| FlatNames.FromRoot | src/hier_ref_lint.rs:363-376 | `$root` starts at the top, whose own name may follow |
| FlatNames.SilentHeads | src/hier_ref_lint.rs:377-409 | no error for names that are not hierarchical and for heads that resolve nowhere or to a declaration |
| ScopeWalker.Walker.Expression | src/hier_ref_lint.rs:708-720 | appends the expression's references whose head is in no frame, and leaves those collected before |
| ScopeWalker.Walker.Statement | src/hier_ref_lint.rs:743-877 | collects exactly what the environment-passing definition collects, and returns the stack with at most its innermost frame grown |
| ScopeWalker.CollectExact | src/hier_ref_lint.rs:699-877 | that definition reports, in order, exactly the written references whose head is no local visible at their own place, and leaves visible what the statement declares |
| ScopeWalker.UnshadowedIff | src/hier_ref_lint.rs:708-720 | a reference is reported if and only if it is written somewhere where no visible local is its head |
| ScopeWalker.ForHides | src/hier_ref_lint.rs:743-877 | nothing collected from a `for` loop has a head that its header declares |
| ScopeWalker.ForeachHides | src/hier_ref_lint.rs:743-877 | a `foreach` hides its variables in its body and not in the array that it runs over |
| ScopeWalker.DeclarationHides | src/hier_ref_lint.rs:743-877 | a declaration hides its name in its own initializer and in the rest of the block, and not behind it |
| ScopeWalker.BodyRefs | src/hier_ref_lint.rs:882-891 | a body's references are exactly those that no local visible at their place shadows, starting from the formals |
| ParamCycle.Cyclic | src/should_fail_lint.rs:2834-2858 | the search ends on every graph and answers whether a non-empty reference path leads from the parameter back to it |
| ParamCycle.CheckParams | src/should_fail_lint.rs:2833-2864 | exactly the parameters on such a path are reported |
| ParamCycle.RefersByName | src/should_fail_lint.rs:2833-2840 | one parameter refers to another if and only if its value reads the other's name, that is no package name, and no later parameter has it |
| ParamCycle.SelfReferenceReported | src/should_fail_lint.rs:2833-2864 | a parameter that reads its own name is reported if and only if that is no package name and no later parameter has it |
| ParamCycle.ShadowedSelfReference | src/should_fail_lint.rs:2833-2840 | with a repeated name, a self-reference that is not reported |
| EnumValues.CheckEnumValues | src/should_fail_lint.rs:1405-1551 | tracking finishes exactly when every member has a known range and value, the enumerators found then have the values of `Numbered`, the reports are theirs, in order, and that of the stop, and after finishing there are none exactly when every value fits or is a sized literal that does and all bit patterns differ |
| EnumValues.SilentIffLawful | src/should_fail_lint.rs:1483-1549 | nothing is reported about the enumerators exactly when each fits the base type or is a sized literal that does, and all bit patterns differ |
| EnumValues.SamePatternSameValue | src/should_fail_lint.rs:1434-1444 | two values in the range of a signed or unsigned base have the same bit pattern exactly when they are the same integer |
| EnumValues.SameReportIsTrue | src/should_fail_lint.rs:1539-1547 | every report of equal values names two enumerators with one bit pattern, which are the same integer if both are in range |
| EnumValues.MemberSlots | src/should_fail_lint.rs:1483-1548 | a name range stands for consecutive values from its first |
| EnumValues.TrackNumbers | src/should_fail_lint.rs:1446-1549 | the enumerators found are the members' names in order, one or as many as the range spans; an initialized member's first has the folded value, every other is one more than the one before, and the first of all is 0 |
| EnumValues.TrackEnds | src/should_fail_lint.rs:1446-1503 | tracking reaches the end exactly when every range has known bounds of at least 0 and every initializer folds, and otherwise stops at the first member that does not, with its fault |
| EnumValues.FitsMeans | src/should_fail_lint.rs:1434-1439 | an unsigned base holds 0 to 2^width - 1, a signed one as many values, half of them negative |
| EnumValues.PatternMeans | src/should_fail_lint.rs:1440-1444 | a pattern is the number below 2^width that is the value modulo 2^width |
| EnumValues.RangeReportMeans | src/should_fail_lint.rs:1517-1538 | range reports are made exactly for the values out of range, with the kind the value and its initializer give |
| Reachable.Owners | src/main.rs:1665-1671 | a name belongs to the first file that declares it, and to none exactly when no file does |
| Reachable.FilesForTop | src/main.rs:1663-1707 | nothing if and only if no file declares the top; otherwise a file is kept exactly when there is a reason in the kept set, and that set is the least one with the top's file and the always-kept files that is closed under mentioning |
| Reachable.NeededIff | src/main.rs:1663-1707 | a file is kept if and only if it is the first to declare the top, declares no unit, has a `bind` outside every unit, or is the first to declare a name that a kept file mentions |
| Reachable.ReAdd | src/main.rs:1906-1938 | the kept and the re-added files are what one closure from both kinds of root gives, and the two do not overlap |
| Reachable.ClosureResumes | src/main.rs:1906-1938 | closing again after adding roots is closing once from all roots, if and only if |
| Reachable.ClosureUnique | src/main.rs:1677-1707 | there is only one such closure |
| DoScripts.CombineIsMonoid | src/cli_compat.rs:408-412 | run lengths form a commutative monoid with identity Load and absorbing All |
| DoScripts.Planner.Walk | src/cli_compat.rs:379-455 | a script has the result, run length and warnings of its commands with every `do` replaced by its file's, and restores the depth on success |
| DoScripts.PlanDoScripts | src/cli_compat.rs:363-378 | several scripts run as one flattened list up to the first that quits or fails |
| DoScripts.PlanIsTotal | src/cli_compat.rs:404-413 | the planned length is everything if one run asks for all, else the saturated sum of the runs before the script quits |
| DoScripts.QuitEnds | src/cli_compat.rs:379-455 | a `quit` ends the plan with what came before it, whatever follows in the line, the script or later ones |
| DoScripts.CommandDoes | src/cli_compat.rs:404-455 | what each command adds to the plan, and which error ends it |
| DoScripts.CommentEndsLine | src/cli_compat.rs:379-403 | a comment ends its line only |
| DoScripts.SixteenDeep | src/cli_compat.rs:427-446 | a chain of files that include one another is run if it is at most 16 deep and refused otherwise |
| DoScripts.RunsSaturate | src/cli_compat.rs:408-412 | two run lengths add up to at most 2^64 - 1 |
| DoScripts.SelfInclusion | src/cli_compat.rs:427-446 | a file that only includes itself is refused for its depth |
| CacheKey.CacheHash.Bytes | src/lib.rs:151-162 | the loop mixes in the length and then every byte, in both halves |
| CacheKey.HashAll | src/lib.rs:143-171 | hashing inputs one after another gives the specified key text |
| CacheKey.KeyNumbers | src/lib.rs:163-171 | the key text is the two 64-bit states as 16 hexadecimal digits each |
| CacheKey.KeyStarts | src/lib.rs:143-162 | both states start from the given constants and are multiplied by the given factors modulo 2^64 |
| CacheKey.ItemsMean | src/lib.rs:151-162 | the numbers that a length and a byte contribute to either half |
| CacheKey.StepInjective | src/lib.rs:151-162 | for one mixed-in item each half's step is one-to-one on its state |
| CacheKey.OneByteChanges | src/lib.rs:136-171 | changing one byte and no length always changes both halves of the key text |
| CacheKey.FramingIsUnambiguous | src/lib.rs:136-138 | inputs shorter than 2^64 bytes can be read back from the numbers mixed into either half: equal numbers, equal inputs |

## Left out

- DelayTwice.TwiceIsOnce: tidy sources only. A rewritten tail must read as code up to its own `;` and its call up to its own parenthesis, a control after an assignment operator inside an argument must have no comment in its brackets, and the group of a refused `#`, `##` or `repeat` control must be closed, by a parenthesis that is code, with nothing in it rewritten; without such a condition the equivalence fails (`DelayLimits.OpenCountChanges`).
- InitRuns.ReissueIsEnough: operands are evaluated in order, save those that a short-circuit operator or a known condition skips; a dotted name is only read, and which segment of a path a select belongs to does not matter; initializers of other scopes do not run in between.
- InitLimits.ReissueExact: names are declared once, and an initializer mentions only variables declared before it, as declaration before use demands; subroutines may read and assign any.
- InitBlocks.InstalledListExact: one scope, whose old list holds its own declarations only and whose left-out initializers are kept apart; array initializers call nothing and assign nothing else.
- DelayPass.Rewrite: the text is a sequence of characters, not of UTF-8 bytes; the pass branches only on ASCII characters and copies the others whole.
- SetCover.Partition: times are exact reals; rounding, the order of corner and redundant entries by time, and the report text are not modelled.
- OpenArrays.Elem: dimension sizes do not wrap at 32 bits, and a handle is either a header or nothing, without the magic word in front of the data.
- EnumValues.CheckEnumValues: name-range lengths do not wrap at 64 bits; base types other than the integral ones and widths that do not resolve return before this check.
- FlatNames.Names.Resolve: the interface-port alias resolution is a lookup table, elided ports are a set of names, and table construction is not modelled.
- Reachable.FilesForTop: the lexical scan of a file is its result, the lists of declared units and mentioned names.
- DoScripts.Planner.Walk: commands arrive as words already classified and run arguments already parsed; error and warning texts keep only their cause.
- StaticInit.Reissue: rewriting of subroutine names into the instance, the walk over instances and packages, and the collection of declarators from `generate` regions.
- The undeclared-identifier reports of the parameter check, enum base types, assignment-pattern counts, instance views and the `$monitor` scope check of src/should_fail_lint.rs: the same shapes as what is modelled, or easy members.
- Scalar element access, the C-variadic wrappers and the caller information of src/svdpi_shim.c: wrappers over what is modelled.
- The event kernel, the bytecode, the constraint solver and the elaborator, which are not part of this model.
- Command-line options, file reading, log redirection, environment variables, reports and exit codes: input and output.
