/** What the walk of internal/ciconfig/ciconfig.go makes of the run steps it visits. */
module CiExtract {
  import opened CiText
  import opened CiConfig
  import opened CiGates
  import opened Options
  import Strings

  // ------------------------------------------------------------- one run step

  predicate GatingWhen(when: string) {
    TrimSpace(when) != "on_fail" && TrimSpace(when) != "always"
  }

  datatype Verdict = Ignored | Unresolvable | Eligible(candidate: Candidate)

  function JudgeCommand(v: Visit): Verdict
    requires v.Run?
  {
    var cmd := TrimSpace(v.command);
    if cmd == "" then Ignored
    else if Unresolved(cmd) then Unresolvable
    else Eligible(Candidate(v.job, v.step, cmd, v.workingDir))
  }

  /** What `addRun` decides before it looks at the steps already recorded. */
  function Judge(v: Visit): Verdict
    requires v.Run?
  {
    if !GatingWhen(v.when) then Ignored
    else if TrimSpace(v.background) == "" then JudgeCommand(v)
    else match BoolValue(TrimSpace(v.background))
      case Unknown => Unresolvable
      case Known(background) => if background then Ignored else JudgeCommand(v)
  }

  /** A gate whose command refers to a parameter nobody bound is never taken as a candidate. */
  lemma UnboundIsNeverACandidate(job: string, s: Step, args: Args, name: string)
    requires name in Names(s.command) && name !in args
    ensures !Judge(RunVisit(job, s, args)).Eligible?
  {
    hide Names, Substitute, Judge, Unresolved;
    UnboundIsUnresolved(s.command, args, name);
    TrimKeepsUnresolved(Substitute(s.command, args));
    UnresolvedIsNotEligible(RunVisit(job, s, args));
  }

  lemma UnresolvedIsNotEligible(v: Visit)
    requires v.Run? && Unresolved(TrimSpace(v.command))
    ensures !Judge(v).Eligible?
  {
    hide TrimSpace, Unresolved, BoolValue, GatingWhen;
  }

  // ----------------------------------------------------------- the pure result

  function Key(c: Candidate): string { c.workingDir + ['\0'] + c.command }

  function Keys(cs: seq<Candidate>): set<string> { set c | c in cs :: Key(c) }

  function Eligibles(vs: seq<Visit>): seq<Candidate> {
    if vs == [] then []
    else
      var v := vs[|vs| - 1];
      Eligibles(vs[..|vs| - 1]) + (if v.Run? && Judge(v).Eligible? then [Judge(v).candidate] else [])
  }

  /** The first occurrence of every key, in order. */
  function Dedup(cs: seq<Candidate>): seq<Candidate> {
    if cs == [] then []
    else
      var front, c := cs[..|cs| - 1], cs[|cs| - 1];
      if Key(c) in Keys(front) then Dedup(front) else Dedup(front) + [c]
  }

  function Cap(cs: seq<Candidate>): seq<Candidate> {
    if |cs| <= MAX_CANDIDATES then cs else cs[..MAX_CANDIDATES]
  }

  /** The candidates a list of visits comes to. */
  function Candidates(vs: seq<Visit>): seq<Candidate> { Cap(Dedup(Eligibles(vs))) }

  datatype Fate = AsIgnored | AsUnresolved | AsDuplicate | AsTruncated | AsCandidate

  /** What becomes of a run step visited after `before`. */
  function FateAfter(before: seq<Visit>, v: Visit): Fate
    requires v.Run?
  {
    match Judge(v)
    case Ignored => AsIgnored
    case Unresolvable => AsUnresolved
    case Eligible(c) =>
      if Key(c) in Keys(Candidates(before)) then AsDuplicate
      else if |Candidates(before)| >= MAX_CANDIDATES then AsTruncated
      else AsCandidate
  }

  function CountFate(vs: seq<Visit>, f: Fate): nat {
    if vs == [] then 0
    else
      var front, v := vs[..|vs| - 1], vs[|vs| - 1];
      CountFate(front, f) + (if v.Run? && FateAfter(front, v) == f then 1 else 0)
  }

  function CountRuns(vs: seq<Visit>): nat {
    if vs == [] then 0 else CountRuns(vs[..|vs| - 1]) + (if vs[|vs| - 1].Run? then 1 else 0)
  }

  function CountTooDeep(vs: seq<Visit>): nat {
    if vs == [] then 0 else CountTooDeep(vs[..|vs| - 1]) + (if vs[|vs| - 1].TooDeep? then 1 else 0)
  }

  /** Orb names, each at its first occurrence. */
  function OrbNames(vs: seq<Visit>): seq<string> {
    if vs == [] then []
    else
      var names, v := OrbNames(vs[..|vs| - 1]), vs[|vs| - 1];
      if v.Orb? && v.name !in names then names + [v.name] else names
  }

  lemma {:induction false} DedupIsDistinct(cs: seq<Candidate>)
    ensures Keys(Dedup(cs)) == Keys(cs)
    ensures forall i, j :: 0 <= i < j < |Dedup(cs)| ==> Key(Dedup(cs)[i]) != Key(Dedup(cs)[j])
  {
    hide Key;
    if cs != [] {
      var front, c := cs[..|cs| - 1], cs[|cs| - 1];
      DedupIsDistinct(front);
      KeysAppend(front, c);
      assert front + [c] == cs;
      KeysAppend(Dedup(front), c);
      forall i | 0 <= i < |Dedup(front)| ensures Key(Dedup(front)[i]) in Keys(front) {
        assert Dedup(front)[i] in Dedup(front);
      }
    }
  }

  lemma KeysAppend(cs: seq<Candidate>, c: Candidate)
    ensures Keys(cs + [c]) == Keys(cs) + {Key(c)}
  {
    hide Key;
    assert forall x :: x in cs + [c] <==> x in cs || x == c;
  }

  /** An element of the deduplicated list is an element at the first index with its key. */
  lemma {:induction false} DedupTakesFirst(cs: seq<Candidate>, c: Candidate) returns (i: nat)
    requires c in Dedup(cs)
    ensures i < |cs| && cs[i] == c && forall j :: 0 <= j < i ==> Key(cs[j]) != Key(c)
  {
    hide Key, Keys;
    var front, last := cs[..|cs| - 1], cs[|cs| - 1];
    if c in Dedup(front) {
      i := DedupTakesFirst(front, c);
      assert forall j :: 0 <= j < |front| ==> front[j] == cs[j];
    } else {
      i := |cs| - 1;
      NotInKeys(front, c);
      assert forall j :: 0 <= j < |front| ==> front[j] == cs[j];
    }
  }

  lemma NotInKeys(cs: seq<Candidate>, c: Candidate)
    requires Key(c) !in Keys(cs)
    ensures forall j :: 0 <= j < |cs| ==> Key(cs[j]) != Key(c)
  {
    hide Key;
    forall j | 0 <= j < |cs| ensures Key(cs[j]) != Key(c) {
      assert cs[j] in cs;
    }
  }

  // ------------------------------------------------------ one more visit

  lemma VisitsAppend(vs: seq<Visit>, v: Visit)
    ensures (vs + [v])[..|vs + [v]| - 1] == vs && (vs + [v])[|vs + [v]| - 1] == v
  {
  }

  /** What one more run step does to the candidates. */
  lemma CandidatesStep(vs: seq<Visit>, v: Visit)
    requires v.Run?
    ensures Candidates(vs + [v]) ==
      if FateAfter(vs, v) == AsCandidate then Candidates(vs) + [Judge(v).candidate] else Candidates(vs)
  {
    hide Judge, Key;
    VisitsAppend(vs, v);
    if Judge(v).Eligible? {
      var cs, c := Eligibles(vs), Judge(v).candidate;
      assert Eligibles(vs + [v]) == cs + [c];
      DedupStep(cs, c);
      DedupIsDistinct(cs);
      CapKeys(Dedup(cs), c);
    } else {
      assert Eligibles(vs + [v]) == Eligibles(vs);
    }
  }

  lemma NotARun(vs: seq<Visit>, v: Visit)
    requires !v.Run?
    ensures Candidates(vs + [v]) == Candidates(vs)
  {
    VisitsAppend(vs, v);
    hide Dedup, Cap;
    assert Eligibles(vs + [v]) == Eligibles(vs);
  }

  lemma DedupStep(cs: seq<Candidate>, c: Candidate)
    ensures Dedup(cs + [c]) == if Key(c) in Keys(cs) then Dedup(cs) else Dedup(cs) + [c]
  {
    assert (cs + [c])[..|cs|] == cs;
  }

  lemma CapKeys(cs: seq<Candidate>, c: Candidate)
    ensures |cs| < MAX_CANDIDATES ==> Cap(cs) == cs && Cap(cs + [c]) == cs + [c]
    ensures |cs| >= MAX_CANDIDATES ==> Cap(cs + [c]) == Cap(cs) && |Cap(cs)| == MAX_CANDIDATES
    ensures Keys(Cap(cs)) <= Keys(cs)
  {
    hide Key;
    assert forall x :: x in Cap(cs) ==> x in cs;
    if |cs| >= MAX_CANDIDATES {
      assert (cs + [c])[..MAX_CANDIDATES] == cs[..MAX_CANDIDATES];
    }
  }

  lemma CountStep(vs: seq<Visit>, v: Visit, f: Fate)
    ensures CountFate(vs + [v], f) == CountFate(vs, f) + (if v.Run? && FateAfter(vs, v) == f then 1 else 0)
    ensures CountRuns(vs + [v]) == CountRuns(vs) + (if v.Run? then 1 else 0)
  {
    hide FateAfter;
    VisitsAppend(vs, v);
  }

  /** Every run step visited is counted exactly once. */
  ghost predicate CountedOnce(vs: seq<Visit>) {
    && CountRuns(vs) == CountFate(vs, AsIgnored) + CountFate(vs, AsUnresolved) + CountFate(vs, AsDuplicate)
                        + CountFate(vs, AsTruncated) + CountFate(vs, AsCandidate)
    && CountFate(vs, AsCandidate) == |Candidates(vs)|
  }

  lemma {:induction false} EveryRunIsCountedOnce(vs: seq<Visit>)
    ensures CountedOnce(vs)
  {
    hide CountedOnce, FateAfter, Judge;
    if vs == [] {
      NothingCounted();
    } else {
      var front, v := vs[..|vs| - 1], vs[|vs| - 1];
      EveryRunIsCountedOnce(front);
      assert front + [v] == vs;
      OneMoreIsCounted(front, v);
    }
  }

  lemma NothingCounted()
    ensures CountedOnce([])
  {
    assert Dedup(Eligibles([])) == [];
  }

  lemma OneMoreIsCounted(vs: seq<Visit>, v: Visit)
    requires CountedOnce(vs)
    ensures CountedOnce(vs + [v])
  {
    hide Candidates, FateAfter, CountFate, CountRuns, Judge;
    CountStep(vs, v, AsIgnored);
    CountStep(vs, v, AsUnresolved);
    CountStep(vs, v, AsDuplicate);
    CountStep(vs, v, AsTruncated);
    CountStep(vs, v, AsCandidate);
    if v.Run? { CandidatesStep(vs, v); } else { NotARun(vs, v); }
  }

  /** How many of the eligible run steps have a key outside `kept`. */
  function CountOutside(cs: seq<Candidate>, kept: set<string>): nat {
    if cs == [] then 0
    else CountOutside(cs[..|cs| - 1], kept) + (if Key(cs[|cs| - 1]) in kept then 0 else 1)
  }

  lemma OutsideStep(cs: seq<Candidate>, c: Candidate, kept: set<string>)
    ensures CountOutside(cs + [c], kept) == CountOutside(cs, kept) + (if Key(c) in kept then 0 else 1)
  {
    hide Key;
    assert (cs + [c])[..|cs|] == cs;
  }

  lemma {:induction false} NoneOutside(cs: seq<Candidate>, kept: set<string>)
    requires Keys(cs) <= kept
    ensures CountOutside(cs, kept) == 0
  {
    hide Key;
    if cs != [] {
      var front, c := cs[..|cs| - 1], cs[|cs| - 1];
      assert front + [c] == cs;
      KeysAppend(front, c);
      NoneOutside(front, kept);
    }
  }

  /** Truncated counts the eligible run steps, repeats included, whose command is in the end not
      among the candidates. */
  ghost predicate TruncatedCountsLeftOut(vs: seq<Visit>) {
    CountFate(vs, AsTruncated) == CountOutside(Eligibles(vs), Keys(Candidates(vs)))
  }

  lemma {:induction false} TruncatedMeansLeftOut(vs: seq<Visit>)
    ensures TruncatedCountsLeftOut(vs)
  {
    hide Judge, Key, Keys, Candidates, FateAfter;
    if vs != [] {
      hide TruncatedCountsLeftOut;
      var front, v := vs[..|vs| - 1], vs[|vs| - 1];
      TruncatedMeansLeftOut(front);
      assert front + [v] == vs;
      TruncatedStep(front, v);
    }
  }

  lemma TruncatedStep(vs: seq<Visit>, v: Visit)
    requires TruncatedCountsLeftOut(vs)
    ensures TruncatedCountsLeftOut(vs + [v])
  {
    hide Judge, Key, CountFate, CountRuns, Keys, Candidates;
    CountStep(vs, v, AsTruncated);
    VisitsAppend(vs, v);
    if v.Run? && Judge(v).Eligible? {
      var cs, c := Eligibles(vs), Judge(v).candidate;
      CandidatesStep(vs, v);
      assert Eligibles(vs + [v]) == cs + [c];
      OutsideStep(cs, c, Keys(Candidates(vs + [v])));
      hide CountOutside, Eligibles;
      if FateAfter(vs, v) == AsCandidate {
        BelowTheCap(vs);
        KeysAppend(Candidates(vs), c);
        NoneOutside(cs, Keys(Candidates(vs)));
        NoneOutside(cs, Keys(Candidates(vs)) + {Key(c)});
      }
    } else {
      assert Eligibles(vs + [v]) == Eligibles(vs);
      if v.Run? { CandidatesStep(vs, v); } else { NotARun(vs, v); }
    }
  }

  /** Below the cap nothing has been left out. */
  lemma BelowTheCap(vs: seq<Visit>)
    requires |Candidates(vs)| < MAX_CANDIDATES
    ensures Keys(Candidates(vs)) == Keys(Eligibles(vs))
  {
    DedupIsDistinct(Eligibles(vs));
  }

  // ------------------------------------------------------------ the walk

  lemma {:induction false} FlattenAppend(table: Table, job: string, a: seq<Step>, s: Step, args: Args, depth: nat)
    ensures Flatten(table, job, a + [s], args, depth)
            == Flatten(table, job, a, args, depth) + FlattenStep(table, job, s, args, depth)
  {
    hide FlattenStep;
    if a == [] {
      assert [] + [s] == [s];
    } else {
      FlattenAppend(table, job, a[1..], s, args, depth);
      assert (a + [s])[1..] == a[1..] + [s];
    }
  }

  lemma FlattenNothing(table: Table, job: string, args: Args, depth: nat)
    ensures Flatten(table, job, [], args, depth) == []
  {
  }

  /** `extractor`. `visited` is the list of visits the walk has made so far. */
  class Extractor {
    const table: Table
    var candidates: seq<Candidate>
    var skippedOrbs: seq<string>
    var truncated: nat
    var unresolved: nat
    var tooDeep: nat
    var seen: set<string>
    ghost var visited: seq<Visit>

    constructor (table: Table)
      ensures Valid() && visited == [] && this.table == table
    {
      this.table := table;
      candidates, skippedOrbs, truncated, unresolved, tooDeep, seen, visited := [], [], 0, 0, 0, {}, [];
    }

    /** The result so far is the pure function of the visits so far. */
    ghost predicate Valid()
      reads this
    {
      && candidates == Candidates(visited)
      && seen == Keys(candidates)
      && skippedOrbs == OrbNames(visited)
      && truncated == CountFate(visited, AsTruncated)
      && unresolved == CountFate(visited, AsUnresolved)
      && tooDeep == CountTooDeep(visited)
    }

    method NoteOrb(name: string)
      requires Valid()
      modifies this
      ensures Valid() && visited == old(visited) + [Orb(name)]
    {
      hide Candidates, CountFate, Keys, OrbNames, CountTooDeep;
      NoRunStep(visited, Orb(name));
      visited := visited + [Orb(name)];
      if name in skippedOrbs {
        return;
      }
      skippedOrbs := skippedOrbs + [name];
    }

    method NoteTooDeep(kind: string)
      requires Valid()
      modifies this
      ensures Valid() && visited == old(visited) + [TooDeep(kind)]
    {
      hide Candidates, CountFate, Keys, OrbNames, CountTooDeep;
      NoRunStep(visited, TooDeep(kind));
      visited := visited + [TooDeep(kind)];
      tooDeep := tooDeep + 1;
    }

    method AddRun(job: string, s: Step, args: Args)
      requires Valid()
      modifies this
      ensures Valid() && visited == old(visited) + [RunVisit(job, s, args)]
    {
      hide Candidates, CountFate, Keys, OrbNames, CountTooDeep, Unresolved, TrimSpace, Substitute,
        BoolValue, GatingWhen;
      ghost var v := RunVisit(job, s, args);
      RunStepDone(visited, v);
      visited := visited + [v];
      if !GatingWhen(Substitute(s.when, args)) {
        return;
      }
      var bg := TrimSpace(Substitute(s.background, args));
      if bg != "" {
        var background := BoolValue(bg);
        if background.Unknown? {
          unresolved := unresolved + 1;
          return;
        }
        if background.value {
          return;
        }
      }
      var cmd := TrimSpace(Substitute(s.command, args));
      if cmd == "" {
        return;
      }
      if Unresolved(cmd) {
        unresolved := unresolved + 1;
        return;
      }
      var key := s.workingDir + ['\0'] + cmd;
      if key in seen {
        return;
      }
      if |candidates| >= MAX_CANDIDATES {
        truncated := truncated + 1;
        return;
      }
      var c := Candidate(job, s.name, cmd, s.workingDir);
      KeysAppend(candidates, c);
      seen := seen + {key};
      candidates := candidates + [c];
    }

    /** Visits exactly the flattening of the steps, in order. */
    method Walk(job: string, steps: seq<Step>, args: Args, depth: nat)
      requires Valid() && depth <= MAX_DEPTH
      modifies this
      ensures Valid() && visited == old(visited) + Flatten(table, job, steps, args, MAX_DEPTH - depth)
      decreases MAX_DEPTH - depth, steps
    {
      hide Valid, RunVisit, Flatten, Substitute, SubstituteAll, MergeArgs;
      ghost var d: nat := MAX_DEPTH - depth;
      assert Flatten(table, job, steps[..0], args, d) == [] by { FlattenNothing(table, job, args, d); }
      for i := 0 to |steps|
        invariant Valid() && visited == old(visited) + Flatten(table, job, steps[..i], args, d)
      {
        var s := steps[i];
        FlattenAppend(table, job, steps[..i], s, args, d);
        assert steps[..i + 1] == steps[..i] + [s];
        if s.kind == "run" {
          AddRun(job, s, args);
        } else if IsWrapper(s.kind) {
          Walk(job, s.nested, args, depth);
        } else if IsCall(table, s.kind) {
          if depth >= MAX_DEPTH {
            NoteTooDeep(s.kind);
          } else {
            var cmd := table[s.kind];
            Walk(job, cmd.steps, MergeArgs(cmd.parameters, SubstituteAll(s.params, args)), depth + 1);
            Walk(job, s.nested, args, depth);
          }
        } else if '/' in s.kind {
          NoteOrb(s.kind);
          Walk(job, s.nested, args, depth);
        }
      }
      assert steps[..|steps|] == steps;
    }

    /** Visits what a gate comes to: a job of this config, or an orb's. */
    method WalkGate(f: Config, g: Gate)
      requires Valid() && table == f.commands
      modifies this
      ensures Valid() && visited == old(visited) + GateVisits(f, g, MAX_DEPTH)
    {
      hide Valid, Flatten, MergeArgs;
      if g.name !in f.jobs {
        NoteOrb(g.name);
        return;
      }
      var job := f.jobs[g.name];
      var args := MergeArgs(job.parameters, g.params);
      Walk(g.name, g.preSteps, args, 0);
      Walk(g.name, job.steps, args, 0);
      Walk(g.name, g.postSteps, args, 0);
    }
  }

  /** What a visit that is no run step changes. */
  lemma NoRunStep(vs: seq<Visit>, v: Visit)
    requires !v.Run?
    ensures Candidates(vs + [v]) == Candidates(vs)
    ensures CountFate(vs + [v], AsTruncated) == CountFate(vs, AsTruncated)
    ensures CountFate(vs + [v], AsUnresolved) == CountFate(vs, AsUnresolved)
    ensures OrbNames(vs + [v]) == if v.Orb? && v.name !in OrbNames(vs) then OrbNames(vs) + [v.name] else OrbNames(vs)
    ensures CountTooDeep(vs + [v]) == CountTooDeep(vs) + (if v.TooDeep? then 1 else 0)
  {
    hide Candidates, CountFate;
    NotARun(vs, v);
    CountStep(vs, v, AsTruncated);
    CountStep(vs, v, AsUnresolved);
    VisitsAppend(vs, v);
  }

  /** What a run step changes. */
  lemma RunStepDone(vs: seq<Visit>, v: Visit)
    requires v.Run?
    ensures var fate := FateAfter(vs, v);
            && Candidates(vs + [v]) ==
                 (if fate == AsCandidate then Candidates(vs) + [Judge(v).candidate] else Candidates(vs))
            && CountFate(vs + [v], AsTruncated) == CountFate(vs, AsTruncated) + (if fate == AsTruncated then 1 else 0)
            && CountFate(vs + [v], AsUnresolved) ==
                 CountFate(vs, AsUnresolved) + (if fate == AsUnresolved then 1 else 0)
    ensures OrbNames(vs + [v]) == OrbNames(vs) && CountTooDeep(vs + [v]) == CountTooDeep(vs)
  {
    hide Candidates, CountFate, Judge;
    CandidatesStep(vs, v);
    CountStep(vs, v, AsTruncated);
    CountStep(vs, v, AsUnresolved);
    VisitsAppend(vs, v);
  }

  // -------------------------------------------------------- a whole config

  datatype Job = Job(steps: seq<Step>, parameters: map<string, Default>)

  /** `workflows` is absent when the config has no workflows block. */
  datatype Config = Config(
    setup: bool, commands: Table, jobs: map<string, Job>, parameters: map<string, Default>,
    workflows: Option<seq<Workflow>>)

  /** The gates of a config; without workflows the job named build runs. */
  ghost function Gates(f: Config, admits: string -> bool): seq<Gate> {
    match f.workflows
    case None => if "build" in f.jobs then [Gate("build", map[], [], [])] else []
    case Some(ws) => FirstByKey(Qualifying(ws, MergeArgs(f.parameters, map[]), admits))
  }

  /** The visits a gate comes to, with `depth` levels of calls. */
  function GateVisits(f: Config, g: Gate, depth: nat): seq<Visit> {
    if g.name !in f.jobs then [Orb(g.name)]
    else
      var job := f.jobs[g.name];
      var args := MergeArgs(job.parameters, g.params);
      Flatten(f.commands, g.name, g.preSteps, args, depth)
      + Flatten(f.commands, g.name, job.steps, args, depth)
      + Flatten(f.commands, g.name, g.postSteps, args, depth)
  }

  function AllVisits(f: Config, gates: seq<Gate>, depth: nat): seq<Visit> {
    if gates == [] then []
    else AllVisits(f, gates[..|gates| - 1], depth) + GateVisits(f, gates[|gates| - 1], depth)
  }

  datatype Result = Result(
    candidates: seq<Candidate>, dynamic: bool, skippedOrbs: seq<string>,
    truncated: nat, unresolved: nat, tooDeep: nat, gateJobs: nat)

  method SelectGates(f: Config, admits: string -> bool) returns (gates: seq<Gate>)
    ensures gates == Gates(f, admits)
  {
    hide FirstByKey, Qualifying, MergeArgs;
    match f.workflows
    case None => gates := if "build" in f.jobs then [Gate("build", map[], [], [])] else [];
    case Some(ws) => gates := GateJobs(ws, MergeArgs(f.parameters, map[]), admits);
  }

  /** Everything `Extract` reports, as a function of the flattened config. */
  method Extract(f: Config, admits: string -> bool) returns (res: Result)
    ensures f.setup ==> res == Result([], true, [], 0, 0, 0, 0)
    ensures !f.setup ==>
      var vs := AllVisits(f, Gates(f, admits), 4);
      res == Result(Candidates(vs), false, Strings.Sort(OrbNames(vs)), CountFate(vs, AsTruncated),
                    CountFate(vs, AsUnresolved), CountTooDeep(vs), |Gates(f, admits)|)
  {
    hide Candidates, CountFate, OrbNames, CountTooDeep, GateVisits, Gates, Strings.Sort;
    if f.setup {
      return Result([], true, [], 0, 0, 0, 0);
    }
    var gates := SelectGates(f, admits);
    var e := new Extractor(f.commands);
    for i := 0 to |gates|
      invariant fresh(e) && e.Valid() && e.table == f.commands && e.visited == AllVisits(f, gates[..i], MAX_DEPTH)
    {
      assert gates[..i + 1][..i] == gates[..i];
      e.WalkGate(f, gates[i]);
    }
    assert gates[..|gates|] == gates;
    res := Result(e.candidates, false, Strings.Sort(e.skippedOrbs), e.truncated, e.unresolved, e.tooDeep, |gates|);
  }

  lemma {:induction false} NoneTooDeep(vs: seq<Visit>)
    ensures CountTooDeep(vs) == 0 <==> !ReportsTooDeep(vs)
  {
    if vs != [] {
      var front, v := vs[..|vs| - 1], vs[|vs| - 1];
      NoneTooDeep(front);
      assert front + [v] == vs;
      ReportsAppend(front, [v]);
      assert ReportsTooDeep([v]) <==> v.TooDeep? by { assert v in [v]; }
    }
  }

  /** When `Extract` reports nothing too deep, a deeper walk would have reported the same: its
      result covers every command call in full. */
  lemma {:induction false} NothingTooDeepIsComplete(f: Config, gates: seq<Gate>, depth: nat)
    requires depth >= MAX_DEPTH && CountTooDeep(AllVisits(f, gates, MAX_DEPTH)) == 0
    ensures AllVisits(f, gates, depth) == AllVisits(f, gates, MAX_DEPTH)
  {
    hide Flatten, CountTooDeep, ReportsTooDeep, MergeArgs;
    if gates != [] {
      var front, g := gates[..|gates| - 1], gates[|gates| - 1];
      NoneTooDeep(AllVisits(f, gates, MAX_DEPTH));
      ReportsAppend(AllVisits(f, front, MAX_DEPTH), GateVisits(f, g, MAX_DEPTH));
      NoneTooDeep(AllVisits(f, front, MAX_DEPTH));
      NothingTooDeepIsComplete(f, front, depth);
      if g.name in f.jobs {
        var job := f.jobs[g.name];
        var args := MergeArgs(job.parameters, g.params);
        var a := Flatten(f.commands, g.name, g.preSteps, args, MAX_DEPTH);
        var b := Flatten(f.commands, g.name, job.steps, args, MAX_DEPTH);
        ReportsAppend(a + b, Flatten(f.commands, g.name, g.postSteps, args, MAX_DEPTH));
        ReportsAppend(a, b);
        DeeperIsSame(f.commands, g.name, g.preSteps, args, MAX_DEPTH, depth);
        DeeperIsSame(f.commands, g.name, job.steps, args, MAX_DEPTH, depth);
        DeeperIsSame(f.commands, g.name, g.postSteps, args, MAX_DEPTH, depth);
      }
    }
  }

  // ------------------------------------------------------ what a gate comes to

  /** A gate comes to its job's steps under the values the workflow passes, and otherwise the
      declared defaults, between the steps the workflow adds; an orb's job to its name. */
  lemma GateIs(f: Config, g: Gate, b: Args, depth: nat)
    requires g.name in f.jobs ==> Binds(b, f.jobs[g.name].parameters, g.params)
    ensures GateVisits(f, g, depth) ==
      if g.name in f.jobs
      then Flatten(f.commands, g.name, g.preSteps + f.jobs[g.name].steps + g.postSteps, b, depth)
      else [Orb(g.name)]
  {
    if g.name in f.jobs {
      var steps := f.jobs[g.name].steps;
      MergeBinds(b, f.jobs[g.name].parameters, g.params);
      StepsInOrder(f.commands, g.name, g.preSteps + steps, g.postSteps, b, depth);
      StepsInOrder(f.commands, g.name, g.preSteps, steps, b, depth);
      hide Flatten, Binds, MergeArgs;
    }
  }

  lemma {:induction false} GatesInOrder(f: Config, a: seq<Gate>, b: seq<Gate>, depth: nat)
    ensures AllVisits(f, a + b, depth) == AllVisits(f, a, depth) + AllVisits(f, b, depth)
  {
    hide GateVisits;
    if b == [] {
      assert a + b == a;
    } else {
      GatesInOrder(f, a, b[..|b| - 1], depth);
      assert (a + b)[..|a + b| - 1] == a + b[..|b| - 1];
    }
  }

  /** The pipeline parameters that conditions see are the declared scalar defaults; without
      workflows the job named build is the only gate. */
  lemma PipelineDefaults(f: Config, admits: string -> bool, b: Args)
    requires Binds(b, f.parameters, map[])
    ensures f.workflows.Some? ==> Gates(f, admits) == FirstByKey(Qualifying(f.workflows.value, b, admits))
    ensures f.workflows.None? ==>
      Gates(f, admits) == if "build" in f.jobs then [Gate("build", map[], [], [])] else []
  {
    MergeBinds(b, f.parameters, map[]);
  }

  /** A run step of a gate's job whose command is one whole reference runs the value the workflow
      passes, or else the scalar default, or else keeps the reference. */
  lemma GateRunsPassedValue(f: Config, a: seq<Gate>, g: Gate, c: seq<Gate>, depth: nat, before: seq<Step>, r: Step,
      after: seq<Step>) returns (k: nat)
    requires g.name in f.jobs && f.jobs[g.name].steps == before + [r] + after && r.kind == "run"
    requires RefAt(r.command).Ref? && RefAt(r.command).len == |r.command|
    ensures RunsAt(AllVisits(f, a + [g] + c, depth), k, g.name, r,
                   StandsFor(r.command, RefAt(r.command).name, f.jobs[g.name].parameters, g.params))
  {
    hide Flatten, RefAt, Binds, RunsAt, StandsFor, GateVisits, AllVisits;
    var declared, text := f.jobs[g.name].parameters, RefAt(r.command).name;
    var b := Bindings(declared, g.params);
    GateIs(f, g, b, depth);
    var pre, post := g.preSteps + before, after + g.postSteps;
    assert g.preSteps + f.jobs[g.name].steps + g.postSteps == pre + [r] + post;
    WholeReferenceRuns(f.commands, g.name, pre, r, post, b, declared, g.params, depth);
    GatesInOrder(f, a + [g], c, depth);
    GatesInOrder(f, a, [g], depth);
    OneGate(f, g, depth);
    k := |AllVisits(f, a, depth)| + |Flatten(f.commands, g.name, pre, b, depth)|;
    RunsLater(AllVisits(f, a, depth), GateVisits(f, g, depth), AllVisits(f, c, depth), k, g.name, r,
              StandsFor(r.command, text, declared, g.params));
  }

  lemma OneGate(f: Config, g: Gate, depth: nat)
    ensures AllVisits(f, [g], depth) == GateVisits(f, g, depth)
  {
    hide GateVisits;
    assert [g][..0] == [] && AllVisits(f, [], depth) == [];
  }

  lemma RunsLater(before: seq<Visit>, vs: seq<Visit>, after: seq<Visit>, k: nat, job: string, r: Step, command: string)
    requires |before| <= k && RunsAt(vs, k - |before|, job, r, command)
    ensures RunsAt(before + vs + after, k, job, r, command)
  {
  }

  // ------------------------------------------------------ what becomes of a run step

  /** What a run step is judged by: when it runs, whether it is a background process, and what is
      left of its command. */
  lemma JudgeIs(v: Visit)
    requires v.Run?
    ensures var when, background, cmd := TrimSpace(v.when), TrimSpace(v.background), TrimSpace(v.command);
      var counts := when != "on_fail" && when != "always";
      var runs := background == "" || BoolValue(background) == Known(false);
      && (Judge(v).Ignored? <==> !counts || BoolValue(background) == Known(true) || (runs && cmd == ""))
      && (Judge(v).Unresolvable? <==> counts && !(BoolValue(background) == Known(true)) && !(runs && cmd == "")
                                      && (!runs || Unresolved(cmd)))
      && (Judge(v).Eligible? ==> Judge(v).candidate == Candidate(v.job, v.step, cmd, v.workingDir))
  {
    EmptyIsNoBoolean();
    hide TrimSpace, BoolValue, Unresolved;
  }

  lemma EmptyIsNoBoolean()
    ensures BoolValue("") == Unknown
  {
    assert TrimSpace("") == "" && ToLower("") == "";
  }

  /** And then by what was recorded before it. */
  lemma FateIs(before: seq<Visit>, v: Visit)
    requires v.Run?
    ensures var fate := FateAfter(before, v);
      && (fate == AsIgnored <==> Judge(v).Ignored?)
      && (fate == AsUnresolved <==> Judge(v).Unresolvable?)
      && (Judge(v).Eligible? ==>
            var seen := exists d :: d in Candidates(before) && Key(d) == Key(Judge(v).candidate);
            && (fate == AsDuplicate <==> seen)
            && (fate == AsTruncated <==> !seen && |Candidates(before)| >= 200)
            && (fate == AsCandidate <==> !seen && |Candidates(before)| < 200))
  {
    hide Judge, Candidates, Key;
  }

  /** At most 200 candidates: the first ones. */
  lemma FirstTwoHundred(vs: seq<Visit>)
    ensures |Candidates(vs)| <= 200 && Candidates(vs) <= Dedup(Eligibles(vs))
    ensures |Candidates(vs)| < 200 ==> Candidates(vs) == Dedup(Eligibles(vs))
  {
    hide Dedup, Eligibles;
  }

  /** The eligible run steps, in the order they were visited, and the calls cut off, one by one. */
  lemma {:induction false} VisitsInOrder(a: seq<Visit>, b: seq<Visit>)
    ensures Eligibles(a + b) == Eligibles(a) + Eligibles(b)
    ensures CountTooDeep(a + b) == CountTooDeep(a) + CountTooDeep(b)
  {
    hide Judge;
    if b == [] {
      assert a + b == a;
    } else {
      VisitsInOrder(a, b[..|b| - 1]);
      assert (a + b)[..|a + b| - 1] == a + b[..|b| - 1];
    }
  }

  lemma OneVisit(v: Visit)
    ensures Eligibles([v]) == if v.Run? && Judge(v).Eligible? then [Judge(v).candidate] else []
    ensures CountTooDeep([v]) == if v.TooDeep? then 1 else 0
    ensures OrbNames([v]) == if v.Orb? then [v.name] else []
  {
    hide Judge;
    assert [v][..0] == [] && Eligibles([]) == [] && OrbNames([]) == [];
  }

  /** Every orb met is named once. */
  lemma {:induction false} OrbsAreNamedOnce(vs: seq<Visit>)
    ensures forall name :: name in OrbNames(vs) <==> Orb(name) in vs
    ensures forall i, j :: 0 <= i < j < |OrbNames(vs)| ==> OrbNames(vs)[i] != OrbNames(vs)[j]
  {
    if vs != [] {
      var front, v := vs[..|vs| - 1], vs[|vs| - 1];
      OrbsAreNamedOnce(front);
      assert front + [v] == vs;
      assert forall x :: x in vs <==> x in front || x == v;
    }
  }

  // ------------------------------------------------------ what is a candidate

  /** A command a candidate can have: trimmed, not empty, with nothing left to resolve. */
  predicate Runnable(cmd: string) {
    cmd != "" && !IsSpace(cmd[0]) && !IsSpace(cmd[|cmd| - 1]) && !Unresolved(cmd)
  }

  /** The commands of candidates are exactly the runnable ones. */
  lemma JudgedIsRunnable(v: Visit)
    requires v.Run?
    ensures Judge(v).Eligible? ==> Judge(v).candidate.workingDir == v.workingDir && Runnable(Judge(v).candidate.command)
    ensures Runnable(v.command) ==> JudgeCommand(v) == Eligible(Candidate(v.job, v.step, v.command, v.workingDir))
  {
    hide Unresolved, IsSpace, TrimSpace, BoolValue, GatingWhen;
    TrimmedEnds(v.command);
    if Runnable(v.command) { RunnableIsTrim(v.command); }
  }

  lemma TrimmedEnds(s: string)
    ensures var t := TrimSpace(s); t != "" ==> !IsSpace(t[0]) && !IsSpace(t[|t| - 1])
  {
    hide TrimSpace, IsSpace;
    var _, _ := TrimIs(s);
  }

  lemma RunnableIsTrim(s: string)
    requires s != "" && !IsSpace(s[0]) && !IsSpace(s[|s| - 1])
    ensures TrimSpace(s) == s
  {
    hide IsSpace;
  }

  lemma {:induction false} EligiblesAreRunnable(vs: seq<Visit>)
    ensures forall c :: c in Eligibles(vs) ==> Runnable(c.command)
  {
    hide Judge, Runnable;
    if vs != [] {
      EligiblesAreRunnable(vs[..|vs| - 1]);
      if vs[|vs| - 1].Run? { JudgedIsRunnable(vs[|vs| - 1]); }
    }
  }

  lemma {:induction false} DedupKeepsOnly(cs: seq<Candidate>)
    ensures forall c :: c in Dedup(cs) ==> c in cs
  {
    hide Key, Keys;
    if cs != [] { DedupKeepsOnly(cs[..|cs| - 1]); }
  }

  /** No candidate is empty or still holds an interpolation. */
  lemma CandidatesAreRunnable(vs: seq<Visit>)
    ensures forall c :: c in Candidates(vs) ==> Runnable(c.command)
  {
    EligiblesAreRunnable(vs);
    DedupKeepsOnly(Eligibles(vs));
    hide Eligibles, Dedup, Runnable;
  }

  // ------------------------------------------------------ what is a duplicate

  /** The dedup key stands for (directory, command): two candidates share a key only when they
      share both. */
  ghost predicate KeysSeparate(dirs: set<string>) {
    forall w1, w2, c1: string, c2: string ::
      w1 in dirs && w2 in dirs && Runnable(c1) && Runnable(c2) && w1 + ['\0'] + c1 == w2 + ['\0'] + c2
      ==> w1 == w2 && c1 == c2
  }

  /** What follows w1 and a NUL in w2 can begin a command. */
  predicate Hides(w1: string, w2: string) {
    w1 + ['\0'] <= w2 && (var rest := w2[|w1| + 1..]; (rest == "" || !IsSpace(rest[0])) && !Unresolved(rest))
  }

  /** The key separates exactly when no working directory is another one, a NUL, and text a
      command can begin with. */
  lemma KeysSeparateIff(dirs: set<string>)
    ensures KeysSeparate(dirs) <==> forall w1, w2 :: w1 in dirs && w2 in dirs ==> !Hides(w1, w2)
  {
    hide Runnable, Hides;
    if KeysSeparate(dirs) {
      forall w1, w2 | w1 in dirs && w2 in dirs ensures !Hides(w1, w2) {
        if Hides(w1, w2) { SharedKey(w1, w2); }
      }
    }
    if forall w1, w2 :: w1 in dirs && w2 in dirs ==> !Hides(w1, w2) {
      forall w1, w2, c1: string, c2: string
        | w1 in dirs && w2 in dirs && Runnable(c1) && Runnable(c2) && w1 + ['\0'] + c1 == w2 + ['\0'] + c2
        ensures w1 == w2 && c1 == c2
      {
        if |w1| <= |w2| { KeyTellsApart(w1, c1, w2, c2); } else { KeyTellsApart(w2, c2, w1, c1); }
      }
    }
  }

  /** Two candidates with one key. */
  lemma SharedKey(w1: string, w2: string)
    requires Hides(w1, w2)
    ensures var rest := w2[|w1| + 1..];
            Runnable(rest + "\0x") && Runnable("x") && w1 + ['\0'] + (rest + "\0x") == w2 + ['\0'] + "x"
  {
    var rest := w2[|w1| + 1..];
    var c := rest + "\0x";
    assert w2 == w1 + ['\0'] + rest;
    if Unresolved(c) { UnresolvedBeforeNul(rest); }
    if Unresolved("x") { NoInterpolationInX(); }
    assert c[0] == if rest == "" then '\0' else rest[0];
  }

  lemma NoInterpolationInX()
    ensures !Unresolved("x")
  {
    if i :| 0 <= i <= |"x"| && InterpolationAt("x"[i..]) { NotInNulX("x"[i..]); }
  }

  lemma KeyTellsApart(w1: string, c1: string, w2: string, c2: string)
    requires |w1| <= |w2| && !Hides(w1, w2) && Runnable(c1) && w1 + ['\0'] + c1 == w2 + ['\0'] + c2
    ensures w1 == w2 && c1 == c2
  {
    hide Unresolved, IsSpace;
    var k := w1 + ['\0'] + c1;
    assert k[..|w1|] == w1 && k[..|w2|] == w2 && k[|w1| + 1..] == c1 && k[|w2| + 1..] == c2;
    if |w1| < |w2| {
      var rest := w2[|w1| + 1..];
      assert k[..|w1| + 1] == w1 + ['\0'] && k[..|w1| + 1] <= w2;
      assert c1 == rest + (['\0'] + c2);
      UnresolvedIn(rest, ['\0'] + c2);
    }
  }

  lemma UnresolvedIn(s: string, more: string)
    ensures Unresolved(s) ==> Unresolved(s + more)
  {
    hide Unresolved;
    if Unresolved(s) {
      UnresolvedAround("", s, more);
      assert "" + s + more == s + more;
    }
  }

  predicate SameWork(a: Candidate, b: Candidate) { a.workingDir == b.workingDir && a.command == b.command }

  /** The first occurrence of every (directory, command), in order. */
  function DedupPairs(cs: seq<Candidate>): seq<Candidate> {
    if cs == [] then []
    else
      var front, c := cs[..|cs| - 1], cs[|cs| - 1];
      if exists d :: d in front && SameWork(c, d) then DedupPairs(front) else DedupPairs(front) + [c]
  }

  lemma SameKeySameWork(dirs: set<string>, c: Candidate, d: Candidate)
    requires KeysSeparate(dirs) && c.workingDir in dirs && d.workingDir in dirs
    requires Runnable(c.command) && Runnable(d.command)
    ensures Key(c) == Key(d) <==> SameWork(c, d)
  {
    hide Runnable;
  }

  lemma {:induction false} DedupIsByPair(cs: seq<Candidate>, dirs: set<string>)
    requires KeysSeparate(dirs) && forall c :: c in cs ==> c.workingDir in dirs && Runnable(c.command)
    ensures Dedup(cs) == DedupPairs(cs)
  {
    hide Runnable, Key, SameWork, KeysSeparate;
    if cs != [] {
      var front, c := cs[..|cs| - 1], cs[|cs| - 1];
      assert c in cs && forall d :: d in front ==> d in cs;
      DedupIsByPair(front, dirs);
      forall d | d in front ensures Key(c) == Key(d) <==> SameWork(c, d) {
        SameKeySameWork(dirs, c, d);
      }
    }
  }

  /** When the key separates the working directories of a config, its candidates are the first 200
      of the first occurrences by directory and command. */
  lemma CandidatesByPair(vs: seq<Visit>, dirs: set<string>)
    requires forall c :: c in Eligibles(vs) ==> c.workingDir in dirs
    requires forall w1, w2 :: w1 in dirs && w2 in dirs ==> !Hides(w1, w2)
    ensures Candidates(vs) == Cap(DedupPairs(Eligibles(vs)))
  {
    KeysSeparateIff(dirs);
    EligiblesAreRunnable(vs);
    hide KeysSeparate, Runnable, Eligibles;
    DedupIsByPair(Eligibles(vs), dirs);
  }

  /** A directory holding a NUL: two different steps share a key, and one of them is dropped. */
  lemma KeyCollision()
    ensures var a := Candidate("j", "", "b\0c", "a");
            var b := Candidate("j", "", "c", "a\0b");
            a != b && Dedup([a, b]) == [a]
  {
    var a, b := Candidate("j", "", "b\0c", "a"), Candidate("j", "", "c", "a\0b");
    assert Key(a) == Key(b);
    DedupStep([], a);
    DedupStep([a], b);
    assert [] + [a] == [a] && [a] + [b] == [a, b] && a in [a];
    assert Key(a) in Keys([a]) && Keys([]) == {} && Dedup([]) == [];
  }
}
