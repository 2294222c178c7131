/** What the `-do` scripts ask for (src/cli_compat.rs, plan_do_scripts and walk_do_script). */
module DoScripts {
  import opened Results

  const MAX_DEPTH := 16
  const MAX_NS := 0xffff_ffff_ffff_ffff

  /** How far the one simulation run should go. */
  datatype DoRun = Load | For(ns: nat) | All

  /** A command between `;` or line ends, with its words classified; `args` of a run are parsed. */
  datatype Command =
    | Comment
    | Blank
    | NoOp(kind: string)
    | Run(args: Result<DoRun, string>)
    | Quit(badOption: Option<string>)
    | Do(file: Option<string>)
    | Unknown(text: string)

  type Script = seq<seq<Command>>

  datatype Error = BadRun(why: string) | BadOption(option: string) | BadDo | TooDeep | Unreadable(file: string) | Unsupported(text: string)

  datatype Plan = Plan(run: DoRun, warned: seq<string>)

  // ---------------------------------------------------------------- run lengths

  function SaturatingAdd(a: nat, b: nat): nat {
    if a + b > MAX_NS then MAX_NS else a + b
  }

  function Combine(a: DoRun, b: DoRun): DoRun {
    match (a, b)
    case (All, _) => All
    case (_, All) => All
    case (For(x), For(y)) => For(SaturatingAdd(x, y))
    case (Load, s) => s
    case (s, Load) => s
  }

  /** Run lengths form a commutative monoid with identity Load and absorbing element All. */
  lemma CombineIsMonoid(a: DoRun, b: DoRun, c: DoRun)
    ensures Combine(Combine(a, b), c) == Combine(a, Combine(b, c))
    ensures Combine(Load, a) == a == Combine(a, Load)
    ensures Combine(All, a) == All == Combine(a, All)
    ensures Combine(a, b) == Combine(b, a)
  {
  }

  // ---------------------------------------------------------------- the flattened script

  /** A command that no `do` hides any more. */
  datatype Step = Go(run: DoRun) | Warn(kind: string) | Stop | Fail(error: Error)

  /** The commands of `lines` with every `do` replaced by the commands of its file. */
  function Flatten(fs: map<string, Script>, lines: Script, depth: nat): seq<Step>
    requires depth <= MAX_DEPTH
    decreases MAX_DEPTH - depth, 2, |lines|
  {
    if lines == [] then [] else FlattenLine(fs, lines[0], depth) + Flatten(fs, lines[1..], depth)
  }

  function FlattenLine(fs: map<string, Script>, cmds: seq<Command>, depth: nat): seq<Step>
    requires depth <= MAX_DEPTH
    decreases MAX_DEPTH - depth, 1, |cmds|
  {
    if cmds == [] || cmds[0].Comment? then [] else FlattenCommand(fs, cmds[0], depth) + FlattenLine(fs, cmds[1..], depth)
  }

  function FlattenCommand(fs: map<string, Script>, c: Command, depth: nat): seq<Step>
    requires depth <= MAX_DEPTH
    decreases MAX_DEPTH - depth, 0, 0
  {
    match c
    case Comment => []
    case Blank => []
    case NoOp(kind) => [Warn(kind)]
    case Run(Ok(run)) => [Go(run)]
    case Run(Err(why)) => [Fail(BadRun(why))]
    case Quit(None) => [Stop]
    case Quit(Some(option)) => [Fail(BadOption(option))]
    case Do(None) => [Fail(BadDo)]
    case Do(Some(file)) =>
      if depth + 1 > MAX_DEPTH then [Fail(TooDeep)]
      else if file !in fs then [Fail(Unreadable(file))]
      else Flatten(fs, fs[file], depth + 1)
    case Unknown(text) => [Fail(Unsupported(text))]
  }

  /** The steps one after another, up to the first that stops or fails. */
  function Execute(steps: seq<Step>, plan: Plan): (Result<bool, Error>, Plan) {
    if steps == [] then (Ok(false), plan) else
    match steps[0]
    case Go(run) => Execute(steps[1..], plan.(run := Combine(plan.run, run)))
    case Warn(kind) => Execute(steps[1..], if kind in plan.warned then plan else plan.(warned := plan.warned + [kind]))
    case Stop => (Ok(true), plan)
    case Fail(error) => (Err(error), plan)
  }

  lemma {:induction false} ExecuteThen(a: seq<Step>, b: seq<Step>, plan: Plan)
    ensures Execute(a + b, plan)
         == if Execute(a, plan).0 == Ok(false) then Execute(b, Execute(a, plan).1) else Execute(a, plan)
  {
    if a == [] {
      assert a + b == b;
    } else {
      assert (a + b)[1..] == a[1..] + b;
      match a[0]
      case Go(run) => ExecuteThen(a[1..], b, plan.(run := Combine(plan.run, run)));
      case Warn(kind) => ExecuteThen(a[1..], b, if kind in plan.warned then plan else plan.(warned := plan.warned + [kind]));
      case Stop =>
      case Fail(_) =>
    }
  }

  // ---------------------------------------------------------------- the planner

  class Planner {
    var plan: Plan
    var depth: nat

    constructor ()
      ensures plan == Plan(Load, []) && depth == 0
    {
      plan, depth := Plan(Load, []), 0;
    }

    /** One command. `Ok(true)`: the script quit. */
    method WalkCommand(fs: map<string, Script>, c: Command) returns (r: Result<bool, Error>)
      requires depth <= MAX_DEPTH && !c.Comment?
      modifies this
      ensures (r, plan) == Execute(FlattenCommand(fs, c, old(depth)), old(plan))
      ensures r.Ok? ==> depth == old(depth)
      decreases MAX_DEPTH - depth, 0, 0
    {
      match c {
        case Blank =>
        case NoOp(kind) =>
          if kind !in plan.warned {
            plan := plan.(warned := plan.warned + [kind]);
          }
        case Run(args) =>
          if args.Err? {
            return Err(BadRun(args.error));
          }
          plan := plan.(run := Combine(plan.run, args.value));
        case Quit(badOption) =>
          return if badOption.Some? then Err(BadOption(badOption.value)) else Ok(true);
        case Do(file) =>
          if file.None? {
            return Err(BadDo);
          }
          depth := depth + 1;
          if depth > MAX_DEPTH {
            return Err(TooDeep);
          }
          if file.value !in fs {
            return Err(Unreadable(file.value));
          }
          r := Walk(fs, fs[file.value]);
          if r.Err? {
            return;
          }
          depth := depth - 1;
          return;
        case Unknown(text) =>
          return Err(Unsupported(text));
      }
      return Ok(false);
    }

    /** A whole script does what its flattened form does, and leaves the nesting depth as it was. */
    method Walk(fs: map<string, Script>, lines: Script) returns (r: Result<bool, Error>)
      requires depth <= MAX_DEPTH
      modifies this
      ensures (r, plan) == Execute(Flatten(fs, lines, old(depth)), old(plan))
      ensures r.Ok? ==> depth == old(depth)
      decreases MAX_DEPTH - depth, 2, |lines|
    {
      for i := 0 to |lines|
        invariant depth == old(depth)
        invariant Execute(Flatten(fs, lines, depth), old(plan)) == Execute(Flatten(fs, lines[i..], depth), plan)
      {
        ghost var rest := Flatten(fs, lines[i + 1..], depth);
        assert lines[i..][0] == lines[i] && lines[i..][1..] == lines[i + 1..];
        var line := lines[i];
        for j := 0 to |line|
          invariant depth == old(depth)
          invariant Execute(Flatten(fs, lines, depth), old(plan)) == Execute(FlattenLine(fs, line[j..], depth) + rest, plan)
        {
          assert line[j..][0] == line[j] && line[j..][1..] == line[j + 1..];
          if line[j].Comment? {
            assert FlattenLine(fs, line[j..], depth) + rest == rest;
            break;
          }
          ghost var after := FlattenLine(fs, line[j + 1..], depth) + rest;
          assert FlattenLine(fs, line[j..], depth) + rest == FlattenCommand(fs, line[j], depth) + after;
          ExecuteThen(FlattenCommand(fs, line[j], depth), after, plan);
          r := WalkCommand(fs, line[j]);
          if r != Ok(false) {
            return;
          }
        }
        assert line[|line|..] == [] && [] + rest == rest;
      }
      return Ok(false);
    }
  }

  // ---------------------------------------------------------------- what the whole plan is

  /** The scripts' steps, one script after the other. */
  function FlattenAll(fs: map<string, Script>, scripts: seq<Script>): seq<Step> {
    if scripts == [] then [] else Flatten(fs, scripts[0], 0) + FlattenAll(fs, scripts[1..])
  }

  method PlanDoScripts(fs: map<string, Script>, scripts: seq<Script>) returns (r: Result<Plan, Error>)
    ensures var (status, plan) := Execute(FlattenAll(fs, scripts), Plan(Load, []));
      r == if status.Ok? then Ok(plan) else Err(status.error)
  {
    var p := new Planner();
    for i := 0 to |scripts|
      invariant p.depth == 0
      invariant Execute(FlattenAll(fs, scripts), Plan(Load, [])) == Execute(FlattenAll(fs, scripts[i..]), p.plan)
    {
      assert scripts[i..][0] == scripts[i] && scripts[i..][1..] == scripts[i + 1..];
      ExecuteThen(Flatten(fs, scripts[i], 0), FlattenAll(fs, scripts[i + 1..]), p.plan);
      var quit := p.Walk(fs, scripts[i]);
      if quit.Err? {
        return Err(quit.error);
      }
      if quit.value {
        return Ok(p.plan);
      }
    }
    return Ok(p.plan);
  }

  /** The run lengths asked for before the first stop or failure. */
  function RunsOf(steps: seq<Step>): seq<DoRun> {
    if steps == [] then [] else
    match steps[0]
    case Go(run) => [run] + RunsOf(steps[1..])
    case Warn(_) => RunsOf(steps[1..])
    case Stop => []
    case Fail(_) => []
  }

  function Sum(runs: seq<DoRun>): nat {
    if runs == [] then 0 else (if runs[0].For? then runs[0].ns else 0) + Sum(runs[1..])
  }

  /** What several run lengths come to: everything if one of them is All, otherwise their sum,
      cut off at the largest 64-bit number; Load if there are none. */
  function Total(runs: seq<DoRun>): DoRun {
    if All in runs then All
    else if forall k :: 0 <= k < |runs| ==> runs[k] == Load then Load
    else For(if Sum(runs) > MAX_NS then MAX_NS else Sum(runs))
  }

  lemma TotalCons(run: DoRun, runs: seq<DoRun>)
    requires run.For? ==> run.ns <= MAX_NS
    ensures Total([run] + runs) == Combine(run, Total(runs))
  {
    var all := [run] + runs;
    assert all[1..] == runs && all[0] == run;
    assert All in all <==> run == All || All in runs;
    assert (forall k :: 0 <= k < |all| ==> all[k] == Load) <==> run == Load && forall k :: 0 <= k < |runs| ==> runs[k] == Load by {
      assert forall k :: 0 <= k < |runs| ==> all[k + 1] == runs[k];
      if forall k :: 0 <= k < |all| ==> all[k] == Load {
        forall k | 0 <= k < |runs| ensures runs[k] == Load {
          assert all[k + 1] == runs[k];
        }
      }
    }
    if forall k :: 0 <= k < |runs| ==> runs[k] == Load {
      NoSum(runs);
    }
  }

  lemma {:induction false} NoSum(runs: seq<DoRun>)
    requires forall k :: 0 <= k < |runs| ==> runs[k] == Load
    ensures Sum(runs) == 0
  {
    if runs != [] {
      NoSum(runs[1..]);
    }
  }

  /** The planned run length is the total of the lengths asked for before the script quits. */
  lemma {:induction false} PlanIsTotal(steps: seq<Step>, plan: Plan)
    requires forall k :: 0 <= k < |steps| && steps[k].Go? && steps[k].run.For? ==> steps[k].run.ns <= MAX_NS
    ensures Execute(steps, plan).1.run == Combine(plan.run, Total(RunsOf(steps)))
  {
    if steps == [] {
    } else {
      match steps[0]
      case Go(run) =>
        PlanIsTotal(steps[1..], plan.(run := Combine(plan.run, run)));
        TotalCons(run, RunsOf(steps[1..]));
        CombineIsMonoid(plan.run, run, Total(RunsOf(steps[1..])));
      case Warn(kind) =>
        PlanIsTotal(steps[1..], if kind in plan.warned then plan else plan.(warned := plan.warned + [kind]));
      case Stop =>
      case Fail(_) =>
    }
  }

  /** A file that only includes itself is refused for its depth, wherever the planner meets it. */
  lemma {:induction false} SelfInclusion(fs: map<string, Script>, file: string, depth: nat)
    requires depth <= MAX_DEPTH && file in fs && fs[file] == [[Do(Some(file))]]
    ensures Flatten(fs, fs[file], depth) == [Fail(TooDeep)]
    decreases MAX_DEPTH - depth
  {
    var line := fs[file][0];
    assert line[1..] == [] && fs[file][1..] == [];
    if depth < MAX_DEPTH {
      SelfInclusion(fs, file, depth + 1);
    }
    assert FlattenLine(fs, line, depth) == FlattenCommand(fs, Do(Some(file)), depth) + [];
    assert Flatten(fs, fs[file], depth) == FlattenLine(fs, line, depth) + [];
  }

  // ---------------------------------------------------------------- what the commands do

  /** `quit` ends the plan with what was asked for before it, whatever follows on the line, in the
      script or in later scripts, however deep it stands. */
  lemma QuitEnds(fs: map<string, Script>, more: seq<Command>, after: Script, later: seq<Step>, depth: nat, plan: Plan)
    requires depth <= MAX_DEPTH
    ensures Execute(Flatten(fs, [[Quit(None)] + more] + after, depth) + later, plan) == (Ok(true), plan)
  {
    var line, script := [Quit(None)] + more, [[Quit(None)] + more] + after;
    assert line[0] == Quit(None) && script[0] == line;
    assert FlattenLine(fs, line, depth) == [Stop] + FlattenLine(fs, line[1..], depth);
    assert Flatten(fs, script, depth) == FlattenLine(fs, line, depth) + Flatten(fs, script[1..], depth);
    var steps := Flatten(fs, script, depth) + later;
    assert steps[0] == Stop;
  }

  /** A comment ends its line and nothing else; a blank command does nothing. */
  lemma CommentEndsLine(fs: map<string, Script>, more: seq<Command>, after: Script, depth: nat)
    requires depth <= MAX_DEPTH
    ensures Flatten(fs, [[Comment] + more] + after, depth) == Flatten(fs, after, depth)
    ensures FlattenLine(fs, [Blank] + more, depth) == FlattenLine(fs, more, depth)
  {
    var line, script := [Comment] + more, [[Comment] + more] + after;
    assert line[0] == Comment && script[0] == line && script[1..] == after;
    assert ([Blank] + more)[1..] == more;
  }

  /** `run` adds its length and goes on, a command without effect warns once for its kind, and
      anything refused ends the plan with its error. */
  lemma CommandDoes(fs: map<string, Script>, c: Command, more: seq<Step>, depth: nat, plan: Plan)
    requires depth <= MAX_DEPTH
    ensures var does := Execute(FlattenCommand(fs, c, depth) + more, plan);
      && (c.Run? && c.args.Ok? ==> does == Execute(more, plan.(run := Combine(plan.run, c.args.value))))
      && (c.Run? && c.args.Err? ==> does == (Err(BadRun(c.args.error)), plan))
      && (c.NoOp? && c.kind in plan.warned ==> does == Execute(more, plan))
      && (c.NoOp? && c.kind !in plan.warned ==> does == Execute(more, plan.(warned := plan.warned + [c.kind])))
      && (c.Quit? && c.badOption.Some? ==> does == (Err(BadOption(c.badOption.value)), plan))
      && (c.Do? && c.file.None? ==> does == (Err(BadDo), plan))
      && (c.Do? && c.file.Some? && c.file.value !in fs && depth < MAX_DEPTH ==> does == (Err(Unreadable(c.file.value)), plan))
      && (c.Unknown? ==> does == (Err(Unsupported(c.text)), plan))
  {
    var one := FlattenCommand(fs, c, depth);
    if |one| == 1 {
      assert (one + more)[0] == one[0] && (one + more)[1..] == more;
    }
  }

  /** No kind of command is warned about twice. */
  lemma {:induction false} WarnedOnce(steps: seq<Step>, plan: Plan)
    requires forall i, j :: 0 <= i < j < |plan.warned| ==> plan.warned[i] != plan.warned[j]
    ensures var w := Execute(steps, plan).1.warned;
      (forall i, j :: 0 <= i < j < |w| ==> w[i] != w[j]) && |plan.warned| <= |w| && w[..|plan.warned|] == plan.warned
  {
    if steps != [] {
      match steps[0]
      case Go(run) => WarnedOnce(steps[1..], plan.(run := Combine(plan.run, run)));
      case Warn(kind) => WarnedOnce(steps[1..], if kind in plan.warned then plan else plan.(warned := plan.warned + [kind]));
      case Stop =>
      case Fail(_) =>
    }
  }

  /** Each file of `files` consists of a `do` of the next one; the last has the one command `c`. */
  predicate Chain(fs: map<string, Script>, files: seq<string>, c: Command) {
    files != [] && files[0] in fs
    && if |files| == 1 then fs[files[0]] == [[c]] else fs[files[0]] == [[Do(Some(files[1]))]] && Chain(fs, files[1..], c)
  }

  /** Files may be nested 16 deep and no deeper. */
  lemma {:induction false} SixteenDeep(fs: map<string, Script>, files: seq<string>, run: DoRun, depth: nat)
    requires depth <= MAX_DEPTH && Chain(fs, files, Run(Ok(run)))
    ensures FlattenCommand(fs, Do(Some(files[0])), depth) == if depth + |files| <= 16 then [Go(run)] else [Fail(TooDeep)]
    decreases |files|
  {
    if depth < MAX_DEPTH {
      var script := fs[files[0]];
      var c := script[0][0];
      assert script == [[c]] && script[1..] == [] && script[0][1..] == [];
      if |files| > 1 { SixteenDeep(fs, files[1..], run, depth + 1); }
      assert FlattenLine(fs, [c], depth + 1) == FlattenCommand(fs, c, depth + 1) + [];
      assert Flatten(fs, script, depth + 1) == FlattenLine(fs, script[0], depth + 1) + [];
    }
  }

  /** Run lengths are 64-bit numbers of nanoseconds, and two of them add up to at most the largest. */
  lemma RunsSaturate(a: nat, b: nat)
    requires a < 0x1_0000_0000_0000_0000 && b < 0x1_0000_0000_0000_0000
    ensures Combine(For(a), For(b)) == For(if a + b < 0x1_0000_0000_0000_0000 then a + b else 0xffff_ffff_ffff_ffff)
  {
  }
}
