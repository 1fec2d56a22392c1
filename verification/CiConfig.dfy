/** The config reducer of internal/ciconfig/ciconfig.go: macro expansion of a job's steps.

    `Flatten` is the pure meaning of a step list: the run steps it comes to, in order, with
    every parameter substituted. The module proves that scoping is lexical and what the bound on
    the depth of calls means. */
module CiConfig {
  import opened CiText
  import opened TextLines

  const MAX_CANDIDATES: nat := 200
  const MAX_DEPTH: nat := 4

  datatype Step = Step(
    kind: string, name: string, command: string, workingDir: string,
    background: string, when: string, params: Args, nested: seq<Step>)

  /** A declared parameter's default; absent when it is not a scalar. */
  datatype Default = NoDefault | Scalar(value: string)

  datatype Command = Command(steps: seq<Step>, parameters: map<string, Default>)

  type Table = map<string, Command>

  datatype Candidate = Candidate(job: string, step: string, command: string, workingDir: string)

  predicate IsWrapper(kind: string) { kind == "when" || kind == "unless" }

  predicate IsCall(table: Table, kind: string) {
    kind != "run" && !IsWrapper(kind) && kind in table
  }

  function MergeArgs(declared: map<string, Default>, passed: Args): Args {
    (map name | name in declared && declared[name].Scalar? :: declared[name].value) + passed
  }

  // ------------------------------------------------------------ expansion

  /** What the walk comes across, with parameters substituted. */
  datatype Visit =
    | Run(job: string, step: string, workingDir: string, when: string, background: string, command: string)
    | TooDeep(kind: string)
    | Orb(name: string)

  function RunVisit(job: string, s: Step, args: Args): Visit {
    Run(job, s.name, s.workingDir, Substitute(s.when, args), Substitute(s.background, args),
        Substitute(s.command, args))
  }

  function BodyArgs(cmd: Command, params: Args, args: Args): Args {
    MergeArgs(cmd.parameters, SubstituteAll(params, args))
  }

  /** The meaning of a step list under `args`, with `depth` levels of calls left. */
  function Flatten(table: Table, job: string, steps: seq<Step>, args: Args, depth: nat): seq<Visit>
    decreases depth, steps
  {
    if steps == [] then []
    else FlattenStep(table, job, steps[0], args, depth) + Flatten(table, job, steps[1..], args, depth)
  }

  function FlattenStep(table: Table, job: string, s: Step, args: Args, depth: nat): seq<Visit>
    decreases depth, s
  {
    if s.kind == "run" then [RunVisit(job, s, args)]
    else if IsWrapper(s.kind) then Flatten(table, job, s.nested, args, depth)
    else if IsCall(table, s.kind) then
      if depth == 0 then [TooDeep(s.kind)]
      else
        var cmd := table[s.kind];
        Flatten(table, job, cmd.steps, BodyArgs(cmd, s.params, args), depth - 1)
        + Flatten(table, job, s.nested, args, depth)
    else if '/' in s.kind then [Orb(s.kind)] + Flatten(table, job, s.nested, args, depth)
    else []
  }

  // --------------------------------------------------- what a step expands to

  /** b binds exactly the names declared with a scalar default or passed, the passed value
      winning. */
  ghost predicate Binds(b: Args, declared: map<string, Default>, passed: Args) {
    && (forall n :: n in b <==> n in passed || (n in declared && declared[n].Scalar?))
    && (forall n :: n in b ==> b[n] == if n in passed then passed[n] else declared[n].value)
  }

  lemma MergeBinds(b: Args, declared: map<string, Default>, passed: Args)
    requires Binds(b, declared, passed)
    ensures MergeArgs(declared, passed) == b
  {
    var m := MergeArgs(declared, passed);
    forall n ensures n in m <==> n in b { assert n in passed <==> n in passed.Keys; }
    forall n | n in m ensures m[n] == b[n] { assert n in passed <==> n in passed.Keys; }
  }

  /** A call expands to the command's body under the values passed, after the caller's
      substitution, and otherwise the declared defaults; then to the steps handed over, under the
      caller's own arguments. Without levels left it is only reported. */
  lemma CallIs(table: Table, job: string, s: Step, args: Args, depth: nat, passed: Args, b: Args)
    requires s.kind != "run" && s.kind != "when" && s.kind != "unless" && s.kind in table
    requires passed.Keys == s.params.Keys && forall n :: n in passed ==> passed[n] == ReplaceRefs(s.params[n], args)
    requires Binds(b, table[s.kind].parameters, passed)
    ensures Flatten(table, job, [s], args, 0) == [TooDeep(s.kind)]
    ensures depth > 0 ==>
      Flatten(table, job, [s], args, depth)
      == Flatten(table, job, table[s.kind].steps, b, depth - 1) + Flatten(table, job, s.nested, args, depth)
  {
    OneStep(table, job, s, args, depth);
    OneStep(table, job, s, args, 0);
    SubstituteAllMeans(s.params, args);
    hide Substitute, SubstituteAll, ReplaceRefs;
    forall n | n in s.params ensures Substitute(s.params[n], args) == passed[n] {
      SubstituteIsReplace(s.params[n], args);
    }
    assert SubstituteAll(s.params, args) == passed;
    hide Binds, MergeArgs;
    MergeBinds(b, table[s.kind].parameters, passed);
  }

  lemma OneStep(table: Table, job: string, s: Step, args: Args, depth: nat)
    ensures Flatten(table, job, [s], args, depth) == FlattenStep(table, job, s, args, depth)
  {
    assert Flatten(table, job, [], args, depth) == [];
    assert [s][1..] == [];
  }

  /** What every other kind of step expands to: a run step to itself with its references
      replaced, a condition to the steps under it, an orb's command to its name and the steps handed to
      it, and a built-in to nothing. */
  lemma StepIs(table: Table, job: string, s: Step, args: Args, depth: nat)
    ensures var vs := Flatten(table, job, [s], args, depth);
      && (s.kind == "run" ==>
            vs == [Run(job, s.name, s.workingDir, ReplaceRefs(s.when, args), ReplaceRefs(s.background, args),
                       ReplaceRefs(s.command, args))])
      && (s.kind == "when" || s.kind == "unless" ==> vs == Flatten(table, job, s.nested, args, depth))
      && (s.kind !in {"run", "when", "unless"} && s.kind !in table ==>
            vs == if '/' in s.kind then [Orb(s.kind)] + Flatten(table, job, s.nested, args, depth) else [])
  {
    OneStep(table, job, s, args, depth);
    SubstituteIsReplace(s.when, args);
    SubstituteIsReplace(s.background, args);
    SubstituteIsReplace(s.command, args);
    hide Substitute, ReplaceRefs;
  }

  /** Steps expand one after the other. */
  lemma {:induction false} StepsInOrder(table: Table, job: string, a: seq<Step>, b: seq<Step>, args: Args, depth: nat)
    ensures Flatten(table, job, a + b, args, depth) ==
      Flatten(table, job, a, args, depth) + Flatten(table, job, b, args, depth)
    decreases a
  {
    hide Flatten;
    if a == [] {
      assert a + b == b;
      FirstStep(table, job, [], args, depth);
    } else {
      StepsInOrder(table, job, a[1..], b, args, depth);
      assert (a + b)[1..] == a[1..] + b;
      FirstStep(table, job, a, args, depth);
      FirstStep(table, job, a + b, args, depth);
      Regroup(FlattenStep(table, job, a[0], args, depth), Flatten(table, job, a[1..], args, depth),
              Flatten(table, job, b, args, depth));
    }
  }

  lemma FirstStep(table: Table, job: string, steps: seq<Step>, args: Args, depth: nat)
    ensures Flatten(table, job, steps, args, depth) == if steps == [] then [] else
      FlattenStep(table, job, steps[0], args, depth) + Flatten(table, job, steps[1..], args, depth)
  {
    hide FlattenStep;
  }

  /** The k-th visit is the run step r, with this command. */
  ghost predicate RunsAt(vs: seq<Visit>, k: nat, job: string, r: Step, command: string) {
    && k < |vs| && vs[k].Run? && vs[k].job == job && vs[k].step == r.name && vs[k].workingDir == r.workingDir
    && vs[k].command == command
  }

  /** What one whole reference to n stands for: the value passed, whatever is declared; the scalar
      default when nothing is passed; the reference itself when there is neither. */
  function StandsFor(text: string, n: string, declared: map<string, Default>, passed: Args): string {
    if n in passed then passed[n]
    else if n in declared && declared[n].Scalar? then declared[n].value
    else text
  }

  /** A run step whose command is one whole reference runs what it stands for. */
  lemma WholeReferenceRuns(table: Table, job: string, before: seq<Step>, r: Step, after: seq<Step>, b: Args,
      declared: map<string, Default>, passed: Args, depth: nat)
    requires Binds(b, declared, passed) && r.kind == "run"
    requires RefAt(r.command).Ref? && RefAt(r.command).len == |r.command|
    ensures RunsAt(Flatten(table, job, before + [r] + after, b, depth), |Flatten(table, job, before, b, depth)|,
                   job, r, StandsFor(r.command, RefAt(r.command).name, declared, passed))
  {
    StepsInOrder(table, job, before + [r], after, b, depth);
    StepsInOrder(table, job, before, [r], b, depth);
    StepIs(table, job, r, b, depth);
    hide Flatten, RefAt;
    var n := RefAt(r.command).name;
    SubstituteIsReplace(r.command, b);
    if n in b { Forwarding(r.command, b); } else { UnboundWhole(r.command, b); }
    hide ReplaceRefs, Substitute;
  }

  lemma UnboundWhole(s: string, args: Args)
    requires RefAt(s).Ref? && RefAt(s).len == |s| && RefAt(s).name !in args
    ensures ReplaceRefs(s, args) == s
  {
    hide RefAt;
    assert ReplaceRefs(s[RefAt(s).len..], args) == [];
    assert s[..|s|] == s;
  }

  /** So a custom command's run step runs the value its caller passed, after the caller's own
      substitution. */
  lemma PassedValueWins(table: Table, job: string, s: Step, args: Args, depth: nat, before: seq<Step>, r: Step,
      after: seq<Step>, passed: Args) returns (k: nat)
    requires s.kind != "run" && s.kind != "when" && s.kind != "unless" && s.kind in table && depth > 0
    requires table[s.kind].steps == before + [r] + after && r.kind == "run"
    requires RefAt(r.command).Ref? && RefAt(r.command).len == |r.command|
    requires passed.Keys == s.params.Keys && forall n :: n in passed ==> passed[n] == ReplaceRefs(s.params[n], args)
    ensures RunsAt(Flatten(table, job, [s], args, depth), k, job, r,
                   StandsFor(r.command, RefAt(r.command).name, table[s.kind].parameters, passed))
  {
    hide Flatten, RefAt, ReplaceRefs, Binds, RunsAt, StandsFor;
    var declared := table[s.kind].parameters;
    var b := Bindings(declared, passed);
    CallIs(table, job, s, args, depth, passed, b);
    WholeReferenceRuns(table, job, before, r, after, b, declared, passed, depth - 1);
    k := |Flatten(table, job, before, b, depth - 1)|;
    StillRuns(Flatten(table, job, table[s.kind].steps, b, depth - 1), Flatten(table, job, s.nested, args, depth),
              k, job, r, StandsFor(r.command, RefAt(r.command).name, declared, passed));
  }

  lemma StillRuns(vs: seq<Visit>, more: seq<Visit>, k: nat, job: string, r: Step, command: string)
    requires RunsAt(vs, k, job, r, command)
    ensures RunsAt(vs + more, k, job, r, command)
  {
  }

  lemma Bindings(declared: map<string, Default>, passed: Args) returns (b: Args)
    ensures Binds(b, declared, passed)
  {
    b := map n | n in declared.Keys + passed.Keys && (n in passed || declared[n].Scalar?) ::
      if n in passed then passed[n] else declared[n].value;
  }

  // --------------------------------------------------------- lexical scoping

  /** The argument names a step list depends on: those its own texts, the values it passes on and
      the steps it hands over refer to. Bodies of called commands contribute none. */
  function Free(steps: seq<Step>): set<string> {
    if steps == [] then {} else FreeStep(steps[0]) + Free(steps[1..])
  }

  function FreeStep(s: Step): set<string> {
    Names(s.when) + Names(s.background) + Names(s.command)
    + (set p, n | p in s.params && n in Names(s.params[p]) :: n) + Free(s.nested)
  }

  /** The short cut of `substituteAll` changes nothing either. */
  lemma SubstituteAllMeans(params: Args, args: Args)
    ensures SubstituteAll(params, args) == map name | name in params :: Substitute(params[name], args)
  {
    if |params| == 0 {
      assert params == map[];
    } else if |args| == 0 {
      forall name | name in params ensures Substitute(params[name], args) == params[name] {
      }
    }
  }

  lemma PassedAgree(params: Args, a: Args, b: Args)
    requires forall p :: p in params ==> Agree(a, b, Names(params[p]))
    ensures SubstituteAll(params, a) == SubstituteAll(params, b)
  {
    SubstituteAllMeans(params, a);
    SubstituteAllMeans(params, b);
    hide Substitute, SubstituteAll, Agree, Names;
    forall p | p in params ensures Substitute(params[p], a) == Substitute(params[p], b) {
      SubstituteAgrees(params[p], a, b);
    }
  }

  /** Scoping is lexical: two callers whose arguments agree on the free names of a step list
      get the same expansion of it, to any depth. */
  lemma {:induction false} ScopingIsLexical(table: Table, job: string, steps: seq<Step>, a: Args, b: Args, depth: nat)
    requires Agree(a, b, Free(steps))
    ensures Flatten(table, job, steps, a, depth) == Flatten(table, job, steps, b, depth)
    decreases steps
  {
    if steps != [] {
      StepIsLexical(table, job, steps[0], a, b, depth);
      ScopingIsLexical(table, job, steps[1..], a, b, depth);
    }
  }

  lemma AgreeOnLess(a: Args, b: Args, more: set<string>, less: set<string>)
    requires Agree(a, b, more) && less <= more
    ensures Agree(a, b, less)
  {
  }

  lemma {:induction false} StepIsLexical(table: Table, job: string, s: Step, a: Args, b: Args, depth: nat)
    requires Agree(a, b, FreeStep(s))
    ensures FlattenStep(table, job, s, a, depth) == FlattenStep(table, job, s, b, depth)
    decreases s
  {
    var names := FreeStep(s);
    hide Agree, Names, Substitute, SubstituteAll, MergeArgs;
    AgreeOnLess(a, b, names, Names(s.when));
    AgreeOnLess(a, b, names, Names(s.background));
    AgreeOnLess(a, b, names, Names(s.command));
    SubstituteAgrees(s.when, a, b);
    SubstituteAgrees(s.background, a, b);
    SubstituteAgrees(s.command, a, b);
    forall p | p in s.params ensures Agree(a, b, Names(s.params[p])) {
      assert forall n :: n in Names(s.params[p]) ==> n in names;
      AgreeOnLess(a, b, names, Names(s.params[p]));
    }
    PassedAgree(s.params, a, b);
    AgreeOnLess(a, b, names, Free(s.nested));
    ScopingIsLexical(table, job, s.nested, a, b, depth);
  }

  /** Callers that pass a command the same values, whatever they forwarded to get them, get the
      same body: nothing else they were given reaches it. Only the steps they hand over are read
      under their own arguments. */
  lemma CallerArgumentsDoNotLeak(table: Table, job: string, s: Step, a: Args, b: Args, depth: nat)
    requires IsCall(table, s.kind) && SubstituteAll(s.params, a) == SubstituteAll(s.params, b)
    requires Agree(a, b, Free(s.nested))
    ensures FlattenStep(table, job, s, a, depth) == FlattenStep(table, job, s, b, depth)
  {
    hide Agree, Free, SubstituteAll, MergeArgs;
    ScopingIsLexical(table, job, s.nested, a, b, depth);
  }

  // ------------------------------------------------------------ the depth bound

  ghost predicate ReportsTooDeep(vs: seq<Visit>) {
    exists v :: v in vs && v.TooDeep?
  }

  /** A chain of n nested calls starts somewhere in the step list. */
  ghost predicate Chain(table: Table, steps: seq<Step>, n: nat)
    decreases n, steps
  {
    n == 0 || (steps != [] && (ChainStep(table, steps[0], n) || Chain(table, steps[1..], n)))
  }

  ghost predicate ChainStep(table: Table, s: Step, n: nat)
    requires n > 0
    decreases n, s
  {
    if s.kind == "run" then false
    else if IsCall(table, s.kind) then
      Chain(table, table[s.kind].steps, n - 1) || Chain(table, s.nested, n)
    else (IsWrapper(s.kind) || '/' in s.kind) && Chain(table, s.nested, n)
  }

  lemma ReportsAppend(a: seq<Visit>, b: seq<Visit>)
    ensures ReportsTooDeep(a + b) <==> ReportsTooDeep(a) || ReportsTooDeep(b)
  {
    if ReportsTooDeep(a) {
      var v :| v in a && v.TooDeep?;
      assert v in a + b;
    }
    if ReportsTooDeep(b) {
      var v :| v in b && v.TooDeep?;
      assert v in a + b;
    }
  }

  lemma OneIsReported(kind: string)
    ensures ReportsTooDeep([TooDeep(kind)])
  {
    assert TooDeep(kind) in [TooDeep(kind)];
  }

  /** The bound is reported exactly when the steps start a chain of calls longer than it. */
  lemma {:induction false} TooDeepIff(table: Table, job: string, steps: seq<Step>, args: Args, depth: nat)
    ensures ReportsTooDeep(Flatten(table, job, steps, args, depth)) <==> Chain(table, steps, depth + 1)
    decreases depth, steps
  {
    if steps != [] {
      TooDeepStepIff(table, job, steps[0], args, depth);
      TooDeepIff(table, job, steps[1..], args, depth);
      ReportsAppend(FlattenStep(table, job, steps[0], args, depth), Flatten(table, job, steps[1..], args, depth));
    }
  }

  lemma {:induction false} TooDeepStepIff(table: Table, job: string, s: Step, args: Args, depth: nat)
    ensures ReportsTooDeep(FlattenStep(table, job, s, args, depth)) <==> ChainStep(table, s, depth + 1)
    decreases depth, s
  {
    TooDeepIff(table, job, s.nested, args, depth);
    if IsCall(table, s.kind) {
      var cmd := table[s.kind];
      if depth == 0 {
        OneIsReported(s.kind);
      } else {
        var body := BodyArgs(cmd, s.params, args);
        TooDeepIff(table, job, cmd.steps, body, depth - 1);
        ReportsAppend(Flatten(table, job, cmd.steps, body, depth - 1), Flatten(table, job, s.nested, args, depth));
      }
    } else if !IsWrapper(s.kind) && '/' in s.kind {
      ReportsAppend([Orb(s.kind)], Flatten(table, job, s.nested, args, depth));
    }
  }

  /** A bound that is never hit does not change the meaning. */
  lemma {:induction false} DeeperIsSame(table: Table, job: string, steps: seq<Step>, args: Args, d: nat, e: nat)
    requires d <= e && !ReportsTooDeep(Flatten(table, job, steps, args, d))
    ensures Flatten(table, job, steps, args, d) == Flatten(table, job, steps, args, e)
    decreases d, steps
  {
    if steps != [] {
      ReportsAppend(FlattenStep(table, job, steps[0], args, d), Flatten(table, job, steps[1..], args, d));
      DeeperStepIsSame(table, job, steps[0], args, d, e);
      DeeperIsSame(table, job, steps[1..], args, d, e);
    }
  }

  lemma {:induction false} DeeperStepIsSame(table: Table, job: string, s: Step, args: Args, d: nat, e: nat)
    requires d <= e && !ReportsTooDeep(FlattenStep(table, job, s, args, d))
    ensures FlattenStep(table, job, s, args, d) == FlattenStep(table, job, s, args, e)
    decreases d, s
  {
    if s.kind == "run" {
    } else if IsWrapper(s.kind) {
      DeeperIsSame(table, job, s.nested, args, d, e);
    } else if IsCall(table, s.kind) {
      var cmd := table[s.kind];
      if d == 0 {
        OneIsReported(s.kind);
      } else {
        var body := BodyArgs(cmd, s.params, args);
        ReportsAppend(Flatten(table, job, cmd.steps, body, d - 1), Flatten(table, job, s.nested, args, d));
        DeeperIsSame(table, job, cmd.steps, body, d - 1, e - 1);
        DeeperIsSame(table, job, s.nested, args, d, e);
      }
    } else if '/' in s.kind {
      ReportsAppend([Orb(s.kind)], Flatten(table, job, s.nested, args, d));
      DeeperIsSame(table, job, s.nested, args, d, e);
    }
  }

  /** A rank for an acyclic table: every command calls only commands of smaller rank. */
  ghost predicate Ranked(table: Table, rank: map<string, nat>) {
    table.Keys <= rank.Keys && forall c :: c in table ==> CallsBelow(table, rank, table[c].steps, rank[c])
  }

  ghost predicate CallsBelow(table: Table, rank: map<string, nat>, steps: seq<Step>, bound: nat)
    requires table.Keys <= rank.Keys
  {
    steps == [] || (StepBelow(table, rank, steps[0], bound) && CallsBelow(table, rank, steps[1..], bound))
  }

  ghost predicate StepBelow(table: Table, rank: map<string, nat>, s: Step, bound: nat)
    requires table.Keys <= rank.Keys
  {
    (IsCall(table, s.kind) ==> rank[s.kind] < bound) && CallsBelow(table, rank, s.nested, bound)
  }

  /** Ranks bound the chains: in an acyclic table with ranks below the depth bound, nothing is
      ever too deep. */
  lemma {:induction false} RankBoundsChains(table: Table, rank: map<string, nat>, steps: seq<Step>, bound: nat)
    requires Ranked(table, rank) && CallsBelow(table, rank, steps, bound)
    ensures !Chain(table, steps, bound + 1)
    decreases bound, steps
  {
    if steps != [] {
      RankBoundsStep(table, rank, steps[0], bound);
      RankBoundsChains(table, rank, steps[1..], bound);
    }
  }

  lemma {:induction false} RankBoundsStep(table: Table, rank: map<string, nat>, s: Step, bound: nat)
    requires Ranked(table, rank) && StepBelow(table, rank, s, bound)
    ensures !ChainStep(table, s, bound + 1)
    decreases bound, s
  {
    RankBoundsChains(table, rank, s.nested, bound);
    if IsCall(table, s.kind) {
      RankBoundsChains(table, rank, table[s.kind].steps, rank[s.kind]);
      if Chain(table, table[s.kind].steps, bound) {
        ChainShrinks(table, table[s.kind].steps, rank[s.kind] + 1, bound);
      }
    }
  }

  lemma {:induction false} ChainShrinks(table: Table, steps: seq<Step>, n: nat, m: nat)
    requires n <= m && Chain(table, steps, m)
    ensures Chain(table, steps, n)
    decreases n, steps
  {
    if n > 0 {
      if ChainStep(table, steps[0], m) {
        ChainStepShrinks(table, steps[0], n, m);
      } else {
        ChainShrinks(table, steps[1..], n, m);
      }
    }
  }

  lemma {:induction false} ChainStepShrinks(table: Table, s: Step, n: nat, m: nat)
    requires 0 < n <= m && ChainStep(table, s, m)
    ensures ChainStep(table, s, n)
    decreases n, s
  {
    if IsCall(table, s.kind) && Chain(table, table[s.kind].steps, m - 1) {
      ChainShrinks(table, table[s.kind].steps, n - 1, m - 1);
    } else {
      ChainShrinks(table, s.nested, n, m);
    }
  }

  /** The walk comes to a call of one of the targets. */
  ghost predicate Reaches(table: Table, steps: seq<Step>, targets: set<string>) {
    steps != [] && (ReachesStep(table, steps[0], targets) || Reaches(table, steps[1..], targets))
  }

  ghost predicate ReachesStep(table: Table, s: Step, targets: set<string>) {
    if s.kind == "run" then false
    else if IsCall(table, s.kind) then s.kind in targets || Reaches(table, s.nested, targets)
    else (IsWrapper(s.kind) || '/' in s.kind) && Reaches(table, s.nested, targets)
  }

  /** A cycle that can be reached is reported at every depth bound, never dropped silently. */
  lemma CyclesAreReported(table: Table, job: string, steps: seq<Step>, args: Args, depth: nat, cycle: set<string>)
    requires forall c :: c in cycle ==> c in table && Reaches(table, table[c].steps, cycle)
    requires Reaches(table, steps, cycle)
    ensures ReportsTooDeep(Flatten(table, job, steps, args, depth))
  {
    CycleChains(table, steps, cycle, depth + 1);
    TooDeepIff(table, job, steps, args, depth);
  }

  lemma {:induction false} CycleChains(table: Table, steps: seq<Step>, cycle: set<string>, n: nat)
    requires forall c :: c in cycle ==> c in table && Reaches(table, table[c].steps, cycle)
    requires Reaches(table, steps, cycle)
    ensures Chain(table, steps, n)
    decreases n, steps
  {
    if n > 0 {
      if ReachesStep(table, steps[0], cycle) {
        CycleChainsStep(table, steps[0], cycle, n);
      } else {
        CycleChains(table, steps[1..], cycle, n);
      }
    }
  }

  lemma {:induction false} CycleChainsStep(table: Table, s: Step, cycle: set<string>, n: nat)
    requires forall c :: c in cycle ==> c in table && Reaches(table, table[c].steps, cycle)
    requires n > 0 && ReachesStep(table, s, cycle)
    ensures ChainStep(table, s, n)
    decreases n, s
  {
    if IsCall(table, s.kind) && s.kind in cycle {
      CycleChains(table, table[s.kind].steps, cycle, n - 1);
    } else {
      CycleChains(table, s.nested, cycle, n);
    }
  }
}
