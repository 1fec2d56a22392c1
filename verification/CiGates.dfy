/** Which workflow entries gate a developer's branch, after internal/ciconfig/ciconfig.go: the
    filters of `gateJobs`, and its dedup by name and printed parameters. */
module CiGates {
  import opened CiConfig
  import opened CiText
  import opened Strings
  import opened TextLines

  /** A workflow entry's job, and what the workflow passes to it. */
  datatype Gate = Gate(name: string, params: Args, preSteps: seq<Step>, postSteps: seq<Step>)

  datatype Filter = Filter(only: seq<string>, ignore: seq<string>)

  datatype Entry = Entry(gate: Gate, kind: string, filter: Filter)

  /** A `when:` or `unless:`; absent ones and logic statements settle nothing. */
  datatype Condition = Unsettled | Scalar(text: string)

  datatype Workflow = Workflow(jobs: seq<Entry>, scheduled: bool, when: Condition, unless: Condition)

  // ------------------------------------------------------------ what qualifies

  const PIPELINE := "pipeline.parameters."

  /** `pipelineParamRef`: the name, when s as a whole is a reference to a pipeline parameter. */
  function PipelineRef(s: string): Ref {
    var r := RefTo(PIPELINE, s); if r.Ref? && r.len == |s| then r else NoRef
  }

  function ConditionValue(c: Condition, params: Args): Truth {
    match c
    case Unsettled => Unknown
    case Scalar(text) =>
      var s := TrimSpace(text);
      var r := PipelineRef(s);
      if r.NoRef? then BoolValue(s)
      else if r.name in params then BoolValue(params[r.name])
      else Unknown
  }

  predicate WorkflowRuns(w: Workflow, params: Args) {
    ConditionValue(w.when, params) != Known(false) && ConditionValue(w.unless, params) != Known(true)
  }

  /** `admits` says whether a branch pattern matches an ordinary working branch. */
  predicate RunsOnWorkingBranch(f: Filter, admits: string -> bool) {
    && (forall p :: p in f.ignore ==> !admits(p))
    && (f.only == [] || exists p :: p in f.only && admits(p))
  }

  predicate Qualifies(e: Entry, admits: string -> bool) {
    e.gate.name != "" && e.kind != "approval" && RunsOnWorkingBranch(e.filter, admits)
  }

  function QualifyingIn(jobs: seq<Entry>, admits: string -> bool): seq<Gate> {
    if jobs == [] then []
    else
      var e := jobs[|jobs| - 1];
      QualifyingIn(jobs[..|jobs| - 1], admits) + (if Qualifies(e, admits) then [e.gate] else [])
  }

  /** The entries of all workflows that gate a push, in config order. */
  function Qualifying(ws: seq<Workflow>, params: Args, admits: string -> bool): seq<Gate> {
    if ws == [] then []
    else
      var w := ws[|ws| - 1];
      Qualifying(ws[..|ws| - 1], params, admits) + GatesOf(w, params, admits)
  }

  /** Workflows, and the entries of one, are read in order. */
  lemma {:induction false} EntriesInOrder(a: seq<Entry>, b: seq<Entry>, admits: string -> bool)
    ensures QualifyingIn(a + b, admits) == QualifyingIn(a, admits) + QualifyingIn(b, admits)
  {
    hide Qualifies;
    if b == [] {
      assert a + b == a;
    } else {
      EntriesInOrder(a, b[..|b| - 1], admits);
      assert (a + b)[..|a + b| - 1] == a + b[..|b| - 1];
    }
  }

  lemma {:induction false} WorkflowsInOrder(a: seq<Workflow>, b: seq<Workflow>, params: Args, admits: string -> bool)
    ensures Qualifying(a + b, params, admits) == Qualifying(a, params, admits) + Qualifying(b, params, admits)
  {
    hide Qualifying, GatesOf;
    if b == [] {
      NoWorkflows(params, admits);
      assert a + b == a && Qualifying(a, params, admits) + [] == Qualifying(a, params, admits);
    } else {
      var front, w := b[..|b| - 1], b[|b| - 1];
      WorkflowsInOrder(a, front, params, admits);
      assert a + b == (a + front) + [w] && b == front + [w];
      OneMoreWorkflow(a + front, w, params, admits);
      OneMoreWorkflow(front, w, params, admits);
      Regroup(Qualifying(a, params, admits), Qualifying(front, params, admits), GatesOf(w, params, admits));
    }
  }

  function GatesOf(w: Workflow, params: Args, admits: string -> bool): seq<Gate> {
    if !w.scheduled && WorkflowRuns(w, params) then QualifyingIn(w.jobs, admits) else []
  }

  lemma NoWorkflows(params: Args, admits: string -> bool)
    ensures Qualifying([], params, admits) == []
  {
  }

  lemma OneMoreWorkflow(ws: seq<Workflow>, w: Workflow, params: Args, admits: string -> bool)
    ensures Qualifying(ws + [w], params, admits) == Qualifying(ws, params, admits) + GatesOf(w, params, admits)
  {
    hide WorkflowRuns, QualifyingIn;
    assert (ws + [w])[..|ws|] == ws;
  }

  /** An entry is a gate unless it has no name, is an approval, or is pinned away: by a pattern to
      ignore that matches a working branch, or by a list of branches none of which does. */
  lemma EntryIsGate(e: Entry, admits: string -> bool)
    ensures QualifyingIn([e], admits) == [e.gate] || QualifyingIn([e], admits) == []
    ensures QualifyingIn([e], admits) == [] <==>
      || e.gate.name == "" || e.kind == "approval"
      || (exists i :: 0 <= i < |e.filter.ignore| && admits(e.filter.ignore[i]))
      || (e.filter.only != [] && forall i :: 0 <= i < |e.filter.only| ==> !admits(e.filter.only[i]))
  {
    assert [e][..0] == [] && QualifyingIn([], admits) == [];
    assert forall i :: 0 <= i < |e.filter.ignore| ==> e.filter.ignore[i] in e.filter.ignore;
    assert forall i :: 0 <= i < |e.filter.only| ==> e.filter.only[i] in e.filter.only;
  }

  /** The condition is settled: a boolean, or a whole reference to a pipeline parameter whose
      default is one. */
  ghost predicate Says(c: Condition, params: Args, value: bool) {
    c.Scalar? &&
    var s := TrimSpace(c.text);
    (exists before, name, after :: AllBlank(before) && AllBlank(after) && IsParameterName(name)
                                   && s == Reference(before, "pipeline.parameters.", name, after, "")
                                   && name in params && BoolValue(params[name]) == Known(value))
    || BoolValue(s) == Known(value)
  }

  /** A workflow's entries gate a push unless it is scheduled, its `when:` settles to false or its
      `unless:` to true; an unsettled condition keeps it. */
  lemma WorkflowIsKept(w: Workflow, params: Args, admits: string -> bool)
    ensures Qualifying([w], params, admits) ==
      if w.scheduled || Says(w.when, params, false) || Says(w.unless, params, true) then []
      else QualifyingIn(w.jobs, admits)
  {
    assert [w][..0] == [] && Qualifying([], params, admits) == [];
    SaysIs(w.when, params, false);
    SaysIs(w.unless, params, true);
    hide Says, ConditionValue, QualifyingIn;
  }

  lemma SaysIs(c: Condition, params: Args, value: bool)
    ensures Says(c, params, value) <==> ConditionValue(c, params) == Known(value)
  {
    hide BoolValue, TrimSpace, AllBlank, IsParameterName, Reference, PipelineRef;
    if c.Scalar? {
      var s := TrimSpace(c.text);
      if PipelineRef(s).Ref? {
        var before, name, after := WholeReference(s);
        ReferenceIsNoBoolean(before, name, after);
      }
      forall before, name, after | AllBlank(before) && AllBlank(after) && IsParameterName(name)
        && s == Reference(before, "pipeline.parameters.", name, after, "") ensures PipelineRef(s) == Ref(name, |s|)
      {
        IsWholeReference(before, name, after);
      }
    }
  }

  lemma WholeReference(s: string) returns (before: string, name: string, after: string)
    requires PipelineRef(s).Ref?
    ensures AllBlank(before) && AllBlank(after) && IsParameterName(name)
    ensures s == Reference(before, "pipeline.parameters.", name, after, "") && PipelineRef(s) == Ref(name, |s|)
  {
    hide AllBlank, IsParameterName, Reference, RefTo;
    var rest;
    before, name, after, rest := ReferenceOnly(PIPELINE, s);
    assert rest == "";
  }

  lemma IsWholeReference(before: string, name: string, after: string)
    requires AllBlank(before) && AllBlank(after) && IsParameterName(name)
    ensures var s := Reference(before, "pipeline.parameters.", name, after, ""); PipelineRef(s) == Ref(name, |s|)
  {
    hide AllBlank, IsParameterName, Reference, RefTo;
    ReferenceIs(before, PIPELINE, name, after, "");
  }

  lemma ReferenceIsNoBoolean(before: string, name: string, after: string)
    ensures BoolValue(Reference(before, PIPELINE, name, after, "")) == Unknown
  {
    var s := Reference(before, PIPELINE, name, after, "");
    assert s[0] == '<' && |s| > 20;
    BooleansAre(s);
    var a, b := TrimIs(s);
    hide BoolValue, TrimSpace, Reference;
  }

  // ------------------------------------------------------------------ the key

  function Entries(pairs: seq<(string, string)>): string {
    if pairs == [] then ""
    else if |pairs| == 1 then Pair(pairs[0])
    else Pair(pairs[0]) + " " + Entries(pairs[1..])
  }

  function Pair(p: (string, string)): string { p.0 + ":" + p.1 }

  function Pairs(m: Args, keys: seq<string>): seq<(string, string)>
    requires forall k :: k in keys ==> k in m
  {
    seq(|keys|, i requires 0 <= i < |keys| => (keys[i], m[keys[i]]))
  }

  /** `fmt.Sprint` of a map: its pairs in the order of their keys. */
  ghost function Print(m: Args): string { "map[" + Entries(Pairs(m, SortedKeys(m.Keys))) + "]" }

  ghost function GateKey(g: Gate): string { g.name + ['\0'] + Print(g.params) }

  /** The first gate of every key, in order. */
  ghost function FirstByKey(gates: seq<Gate>): seq<Gate> {
    if gates == [] then []
    else
      var front, g := gates[..|gates| - 1], gates[|gates| - 1];
      if exists h :: h in front && GateKey(h) == GateKey(g) then FirstByKey(front) else FirstByKey(front) + [g]
  }

  ghost function GateKeys(gates: seq<Gate>): set<string> { set g | g in gates :: GateKey(g) }

  lemma FirstStep(done: seq<Gate>, g: Gate)
    ensures FirstByKey(done + [g]) == if GateKey(g) in GateKeys(done) then FirstByKey(done) else FirstByKey(done) + [g]
    ensures GateKeys(done + [g]) == GateKeys(done) + {GateKey(g)}
  {
    hide GateKey;
    assert (done + [g])[..|done|] == done;
    assert forall h :: h in done + [g] <==> h in done || h == g;
  }

  /** The key of an entry, printed. */
  method KeyOf(g: Gate) returns (key: string)
    ensures key == GateKey(g)
  {
    hide SortedKeys;
    var keys := ListKeys(g.params.Keys);
    key := g.name + ['\0'] + ("map[" + Entries(Pairs(g.params, keys)) + "]");
  }

  /** The entries that gate a push, in config order, each at its first occurrence by key. */
  method GateJobs(ws: seq<Workflow>, params: Args, admits: string -> bool) returns (out: seq<Gate>)
    ensures out == FirstByKey(Qualifying(ws, params, admits))
  {
    hide GateKey, Qualifies, WorkflowRuns, FirstByKey, GateKeys;
    out := [];
    var seen := {};
    NothingYet();
    ghost var done: seq<Gate> := [];
    for i := 0 to |ws|
      invariant done == Qualifying(ws[..i], params, admits)
      invariant out == FirstByKey(done) && seen == GateKeys(done)
    {
      assert ws[..i + 1][..i] == ws[..i];
      var w := ws[i];
      if w.scheduled || !WorkflowRuns(w, params) {
        continue;
      }
      ghost var before := done;
      for j := 0 to |w.jobs|
        invariant done == before + QualifyingIn(w.jobs[..j], admits)
        invariant out == FirstByKey(done) && seen == GateKeys(done)
      {
        assert w.jobs[..j + 1][..j] == w.jobs[..j];
        var e := w.jobs[j];
        if e.gate.name == "" || e.kind == "approval" || !RunsOnWorkingBranch(e.filter, admits) {
          assert !Qualifies(e, admits) by { QualifiesMeans(e, admits); }
          continue;
        }
        QualifiesMeans(e, admits);
        var key := KeyOf(e.gate);
        FirstStep(done, e.gate);
        done := done + [e.gate];
        if key in seen {
          continue;
        }
        seen, out := seen + {key}, out + [e.gate];
      }
      assert w.jobs[..|w.jobs|] == w.jobs;
    }
    assert ws[..|ws|] == ws;
  }

  lemma QualifiesMeans(e: Entry, admits: string -> bool)
    ensures Qualifies(e, admits) <==>
      e.gate.name != "" && e.kind != "approval" && RunsOnWorkingBranch(e.filter, admits)
  {
  }

  lemma NothingYet()
    ensures FirstByKey([]) == [] && GateKeys([]) == {}
  {
  }

  // ------------------------------------------------ reading printed pairs back

  predicate Over(s: string, ok: char -> bool) { forall i :: 0 <= i < |s| ==> ok(s[i]) }

  predicate PairsOver(pairs: seq<(string, string)>, k: char -> bool, v: char -> bool) {
    forall i :: 0 <= i < |pairs| ==> Over(pairs[i].0, k) && Over(pairs[i].1, v)
  }

  /** What follows the first value. */
  function After(pairs: seq<(string, string)>): string {
    if |pairs| <= 1 then "" else " " + Entries(pairs[1..])
  }

  lemma FirstPair(pairs: seq<(string, string)>)
    requires pairs != []
    ensures Entries(pairs) == pairs[0].0 + ([':'] + (pairs[0].1 + After(pairs)))
  {
  }

  /** Where a text begins with a word free of c, and then ends or goes on with c, the word is
      determined. */
  lemma SameWord(a: string, x: string, b: string, y: string, c: char)
    requires c !in a && c !in b && a + x == b + y
    requires (x == "" || x[0] == c) && (y == "" || y[0] == c)
    ensures a == b && x == y
  {
    WordEnds(a, x, c);
    WordEnds(b, y, c);
    hide IndexOf;
    var s := a + x;
    assert s[..|a|] == a && s[..|b|] == b && s[|a|..] == x && s[|b|..] == y;
  }

  lemma WordEnds(a: string, x: string, c: char)
    requires c !in a && (x == "" || x[0] == c)
    ensures IndexOf(a + x, c) == |a|
  {
    hide IndexOf;
    if x == "" {
      assert a + x == a;
    } else {
      IndexAfter(a, c, x[1..]);
      assert a + x == a + [c] + x[1..];
    }
  }

  /** Keys free of ':' and values free of ' ' are read off from the front. */
  lemma {:induction false} ReadForward(ps: seq<(string, string)>, qs: seq<(string, string)>, k: char -> bool,
      v: char -> bool)
    requires !k(':') && !v(' ') && PairsOver(ps, k, v) && PairsOver(qs, k, v) && Entries(ps) == Entries(qs)
    ensures ps == qs
    decreases |ps|
  {
    if ps != [] { FirstPair(ps); }
    if qs != [] { FirstPair(qs); }
    hide Entries;
    NoEntries();
    if ps != [] && qs != [] {
      var p, q := ps[0], qs[0];
      SameWord(p.0, [':'] + (p.1 + After(ps)), q.0, [':'] + (q.1 + After(qs)), ':');
      assert p.1 + After(ps) == ([':'] + (p.1 + After(ps)))[1..];
      assert q.1 + After(qs) == ([':'] + (q.1 + After(qs)))[1..];
      SameWord(p.1, After(ps), q.1, After(qs), ' ');
      if |ps| > 1 && |qs| > 1 {
        assert Entries(ps[1..]) == After(ps)[1..] && Entries(qs[1..]) == After(qs)[1..];
        ReadForward(ps[1..], qs[1..], k, v);
      }
      assert ps == [p] + ps[1..] && qs == [q] + qs[1..];
    }
  }

  lemma NoEntries()
    ensures Entries([]) == ""
  {
  }

  function Rev(s: string): string { if s == "" then "" else Rev(s[1..]) + [s[0]] }

  lemma {:induction false} RevAppend(a: string, b: string)
    ensures Rev(a + b) == Rev(b) + Rev(a)
  {
    if a == "" {
      assert a + b == b;
    } else {
      RevAppend(a[1..], b);
      assert (a + b)[1..] == a[1..] + b;
    }
  }

  lemma {:induction false} RevTwice(s: string)
    ensures Rev(Rev(s)) == s
  {
    if s != "" {
      RevTwice(s[1..]);
      RevAppend(Rev(s[1..]), [s[0]]);
    }
  }

  lemma {:induction false} RevOver(s: string, ok: char -> bool)
    requires Over(s, ok)
    ensures Over(Rev(s), ok)
  {
    if s != "" { RevOver(s[1..], ok); }
  }

  /** The pairs from the back, keys and values exchanged, every text reversed. */
  function Mirror(pairs: seq<(string, string)>): seq<(string, string)> {
    if pairs == [] then [] else Mirror(pairs[1..]) + [(Rev(pairs[0].1), Rev(pairs[0].0))]
  }

  lemma {:induction false} EntriesAppend(pairs: seq<(string, string)>, p: (string, string))
    ensures Entries(pairs + [p]) == if pairs == [] then Pair(p) else Entries(pairs) + " " + Pair(p)
  {
    if |pairs| > 0 {
      EntriesAppend(pairs[1..], p);
      assert (pairs + [p])[1..] == pairs[1..] + [p];
    }
  }

  lemma RevPair(p: (string, string))
    ensures Pair((Rev(p.1), Rev(p.0))) == Rev(Pair(p))
  {
    RevAppend(p.0 + ":", p.1);
    RevAppend(p.0, ":");
    assert Rev(":") == ":";
    hide Rev;
  }

  lemma {:induction false} MirrorPrints(pairs: seq<(string, string)>)
    ensures Entries(Mirror(pairs)) == Rev(Entries(pairs)) && (Mirror(pairs) == [] <==> pairs == [])
  {
    if pairs == [] {
      NoEntries();
    } else {
      var p, rest := pairs[0], pairs[1..];
      var turned := (Rev(p.1), Rev(p.0));
      assert Mirror(pairs) == Mirror(rest) + [turned];
      assert Entries(pairs) == if rest == [] then Pair(p) else Pair(p) + " " + Entries(rest);
      hide Rev, Pair, Mirror, Entries;
      MirrorPrints(rest);
      RevPair(p);
      EntriesAppend(Mirror(rest), turned);
      RevThree(Pair(p), Entries(rest));
    }
  }

  lemma RevThree(a: string, b: string)
    ensures Rev(a + " " + b) == Rev(b) + " " + Rev(a)
  {
    assert Rev(" ") == " ";
    hide Rev;
    RevAppend(a + " ", b);
    RevAppend(a, " ");
  }

  lemma {:induction false} MirrorIsOver(pairs: seq<(string, string)>, k: char -> bool, v: char -> bool)
    requires PairsOver(pairs, k, v)
    ensures PairsOver(Mirror(pairs), v, k)
  {
    if pairs != [] {
      MirrorIsOver(pairs[1..], k, v);
      RevOver(pairs[0].0, k);
      RevOver(pairs[0].1, v);
    }
  }

  lemma {:induction false} MirrorTells(ps: seq<(string, string)>, qs: seq<(string, string)>)
    requires Mirror(ps) == Mirror(qs)
    ensures ps == qs
  {
    if ps != [] && qs != [] {
      var m, n := Mirror(ps), Mirror(qs);
      assert m[..|m| - 1] == Mirror(ps[1..]) && n[..|n| - 1] == Mirror(qs[1..]);
      MirrorTells(ps[1..], qs[1..]);
      RevTwice(ps[0].0);
      RevTwice(ps[0].1);
      RevTwice(qs[0].0);
      RevTwice(qs[0].1);
      hide Mirror, Rev;
      assert ps == [ps[0]] + ps[1..] && qs == [qs[0]] + qs[1..];
    }
  }

  /** Values free of ':' and keys free of ' ' are read off from the back. */
  lemma ReadBackward(ps: seq<(string, string)>, qs: seq<(string, string)>, k: char -> bool, v: char -> bool)
    requires !v(':') && !k(' ') && PairsOver(ps, k, v) && PairsOver(qs, k, v) && Entries(ps) == Entries(qs)
    ensures ps == qs
  {
    hide Mirror, Entries, Rev, PairsOver;
    MirrorPrints(ps);
    MirrorPrints(qs);
    MirrorIsOver(ps, k, v);
    MirrorIsOver(qs, k, v);
    ReadForward(Mirror(ps), Mirror(qs), v, k);
    MirrorTells(ps, qs);
  }

  // --------------------------------------------------- when the key separates

  ghost predicate ArgsOver(m: Args, k: char -> bool, v: char -> bool) {
    forall name :: name in m ==> Over(name, k) && Over(m[name], v)
  }

  /** Keys over k and values over v can be told apart once printed. */
  predicate Readable(k: char -> bool, v: char -> bool) { (!k(':') && !v(' ')) || (!v(':') && !k(' ')) }

  lemma PrintTells(m: Args, n: Args, k: char -> bool, v: char -> bool)
    requires Readable(k, v) && ArgsOver(m, k, v) && ArgsOver(n, k, v) && Print(m) == Print(n)
    ensures m == n
  {
    var a, b := SortedKeys(m.Keys), SortedKeys(n.Keys);
    hide SortedKeys, Sorted, Distinct;
    var ps, qs := Pairs(m, a), Pairs(n, b);
    hide Entries;
    assert Entries(ps) == Print(m)[4..|Print(m)| - 1];
    assert Entries(qs) == Print(n)[4..|Print(n)| - 1];
    if !k(':') && !v(' ') { ReadForward(ps, qs, k, v); } else { ReadBackward(ps, qs, k, v); }
    SamePairs(m, n, a, b);
  }

  lemma SamePairs(m: Args, n: Args, a: seq<string>, b: seq<string>)
    requires (forall k :: k in a <==> k in m) && (forall k :: k in b <==> k in n) && Pairs(m, a) == Pairs(n, b)
    ensures m == n
  {
    assert |a| == |Pairs(m, a)| == |Pairs(n, b)| == |b|;
    forall i | 0 <= i < |a| ensures a[i] == b[i] && m[a[i]] == n[b[i]] {
      assert Pairs(m, a)[i] == Pairs(n, b)[i];
    }
    assert a == b;
    assert forall k :: k in m <==> k in a;
    forall k | k in m ensures m[k] == n[k] {
      var i :| 0 <= i < |a| && a[i] == k;
    }
  }

  ghost predicate GateOver(g: Gate, k: char -> bool, v: char -> bool) {
    '\0' !in g.name && ArgsOver(g.params, k, v)
  }

  predicate SameJob(g: Gate, h: Gate) { g.name == h.name && g.params == h.params }

  /** The key stands for (name, parameters) for all names free of NULs, keys over k and values
      over v. */
  ghost predicate KeysTell(k: char -> bool, v: char -> bool) {
    forall g, h :: GateOver(g, k, v) && GateOver(h, k, v) && GateKey(g) == GateKey(h) ==> SameJob(g, h)
  }

  lemma KeyTells(g: Gate, h: Gate, k: char -> bool, v: char -> bool)
    requires Readable(k, v) && GateOver(g, k, v) && GateOver(h, k, v) && GateKey(g) == GateKey(h)
    ensures SameJob(g, h)
  {
    hide Print, ArgsOver, Readable;
    var x, y := ['\0'] + Print(g.params), ['\0'] + Print(h.params);
    assert GateKey(g) == g.name + x && GateKey(h) == h.name + y;
    SameWord(g.name, x, h.name, y, '\0');
    assert Print(g.params) == x[1..] && Print(h.params) == y[1..];
    PrintTells(g.params, h.params, k, v);
  }

  /** The key separates jobs exactly when parameter names have no ':' and values no ' ', or the
      other way round. (Any character c that can stand in both will do.) */
  lemma KeysTellIff(k: char -> bool, v: char -> bool, c: char)
    requires k(c) && v(c)
    ensures KeysTell(k, v) <==> Readable(k, v)
  {
    hide GateKey, ArgsOver, SameJob, Readable, Print;
    if Readable(k, v) {
      forall g, h | GateOver(g, k, v) && GateOver(h, k, v) && GateKey(g) == GateKey(h) ensures SameJob(g, h) {
        KeyTells(g, h, k, v);
      }
    } else {
      var m, n := Unreadable(k, v, c);
      var g, h := Gate("job", m, [], []), Gate("job", n, [], []);
      assert GateOver(g, k, v) && GateOver(h, k, v);
      assert GateKey(g) == GateKey(h) && !SameJob(g, h) by { OnlyParamsDiffer(g, h); }
    }
  }

  lemma OnlyParamsDiffer(g: Gate, h: Gate)
    requires g.name == h.name && Print(g.params) == Print(h.params) && g.params != h.params
    ensures GateKey(g) == GateKey(h) && !SameJob(g, h)
  {
    hide Print;
  }

  /** What a map prints as, given its keys in order. */
  lemma PrintIs(m: Args, keys: seq<string>)
    requires Sorted(keys) && Distinct(keys) && forall k :: k in keys <==> k in m
    ensures Print(m) == "map[" + Entries(Pairs(m, keys)) + "]"
  {
    SortedUnique(keys, SortedKeys(m.Keys));
    hide Sorted, Distinct, SortedKeys, Entries;
  }

  lemma PrintOne(key: string, value: string)
    ensures Print(map[key := value]) == "map[" + (key + ":" + value) + "]"
  {
    var m := map[key := value];
    PrintIs(m, [key]);
    hide Print;
    assert Pairs(m, [key]) == [(key, value)];
  }

  lemma PrintTwo(one: string, first: string, two: string, second: string)
    requires Leq(one, two) && one != two
    ensures Print(map[one := first, two := second]) == "map[" + (one + ":" + first + " " + (two + ":" + second)) + "]"
  {
    var m := map[one := first, two := second];
    assert Sorted([one, two]) && Distinct([one, two]);
    PrintIs(m, [one, two]);
    hide Print, Sorted, Distinct, Leq;
    var pairs := Pairs(m, [one, two]);
    assert pairs == [(one, first), (two, second)] && pairs[1..] == [(two, second)];
    assert Entries(pairs[1..]) == two + ":" + second;
  }

  /** Two different maps that print alike. */
  lemma Unreadable(k: char -> bool, v: char -> bool, c: char) returns (m: Args, n: Args)
    requires k(c) && v(c) && !Readable(k, v)
    ensures m != n && ArgsOver(m, k, v) && ArgsOver(n, k, v) && Print(m) == Print(n)
  {
    hide Print;
    if k(':') && v(':') {
      m, n := map[":" := ""], map["" := ":"];
      PrintOne(":", "");
      PrintOne("", ":");
      assert ":" + ":" + "" == "" + ":" + ":";
      assert "" in n && "" !in m;
    } else if k(':') {
      m, n := map["" := "", ":" := ""], map[": :" := ""];
      PrintTwo("", "", ":", "");
      PrintOne(": :", "");
      assert "" + ":" + "" + " " + (":" + ":" + "") == ": :" + ":" + "";
      assert "" in m && "" !in n;
    } else if v(':') {
      m, n := map["" := "", [c] := ""], map["" := [' ', c, ':']];
      PrintTwo("", "", [c], "");
      PrintOne("", [' ', c, ':']);
      assert "" + ":" + "" + " " + ([c] + ":" + "") == "" + ":" + [' ', c, ':'];
      assert [c] in m && [c] !in n;
    } else {
      m, n := map["" := "", "  " := ""], map["" := " ", " " := ""];
      PrintTwo("", "", "  ", "");
      PrintTwo("", " ", " ", "");
      assert "" + ":" + "" + " " + ("  " + ":" + "") == "" + ":" + " " + " " + (" " + ":" + "");
      assert " " in n && " " !in m;
    }
  }

  /** The first gate of every (name, parameters), in order. */
  function FirstByJob(gates: seq<Gate>): seq<Gate> {
    if gates == [] then []
    else
      var front, g := gates[..|gates| - 1], gates[|gates| - 1];
      if exists h :: h in front && SameJob(h, g) then FirstByJob(front) else FirstByJob(front) + [g]
  }

  /** Where the key separates jobs, an entry is dropped exactly when an earlier one names the same
      job with the same parameters, whatever steps the two add before and after it. */
  lemma {:induction false} FirstByKeyIsByJob(gates: seq<Gate>, k: char -> bool, v: char -> bool)
    requires Readable(k, v) && forall g :: g in gates ==> GateOver(g, k, v)
    ensures FirstByKey(gates) == FirstByJob(gates)
  {
    hide GateKey, GateOver, SameJob, Readable;
    if gates != [] {
      var front, g := gates[..|gates| - 1], gates[|gates| - 1];
      assert g in gates && forall h :: h in front ==> h in gates;
      FirstByKeyIsByJob(front, k, v);
      forall h | h in front ensures GateKey(h) == GateKey(g) <==> SameJob(h, g) {
        if GateKey(h) == GateKey(g) { KeyTells(h, g, k, v); }
        if SameJob(h, g) { SameJobSameKey(h, g); }
      }
    }
  }

  lemma SameJobSameKey(g: Gate, h: Gate)
    requires SameJob(g, h)
    ensures GateKey(g) == GateKey(h)
  {
  }

  lemma SecondIsDropped(g: Gate, h: Gate)
    requires GateKey(g) == GateKey(h)
    ensures FirstByKey([g, h]) == [g]
  {
    hide GateKey, FirstByKey, GateKeys;
    NothingYet();
    FirstStep([], g);
    FirstStep([g], h);
    assert [] + [g] == [g] && [g] + [h] == [g, h];
  }

  lemma OneLooksLikeTwo()
    ensures Print(map["a" := "1 b:2"]) == Print(map["a" := "1", "b" := "2"])
  {
    PrintOne("a", "1 b:2");
    PrintTwo("a", "1", "b", "2");
    hide Print;
    assert "a" + ":" + "1" + " " + ("b" + ":" + "2") == "a" + ":" + "1 b:2";
  }

  /** One job, given one value that looks like two and then given the two: the second entry is
      dropped, although it runs other commands. */
  lemma GateCollision(name: string, pre: seq<Step>, post: seq<Step>)
    ensures var g := Gate(name, map["a" := "1 b:2"], pre, post);
            var h := Gate(name, map["a" := "1", "b" := "2"], pre, post);
            !SameJob(g, h) && FirstByKey([g, h]) == [g]
  {
    var m, n := map["a" := "1 b:2"], map["a" := "1", "b" := "2"];
    var g, h := Gate(name, m, pre, post), Gate(name, n, pre, post);
    assert "b" in n && "b" !in m;
    hide Print, FirstByKey, GateKey, SameJob;
    OneLooksLikeTwo();
    OnlyParamsDiffer(g, h);
    SecondIsDropped(g, h);
  }

  /** The key does not look at the steps an entry adds around the job: of two entries that differ
      only there, the second is dropped, and the steps it adds with it. */
  lemma AddedStepsAreDropped(g: Gate, h: Gate)
    requires SameJob(g, h)
    ensures FirstByKey([g, h]) == [g]
  {
    SameJobSameKey(g, h);
    SecondIsDropped(g, h);
  }
}
