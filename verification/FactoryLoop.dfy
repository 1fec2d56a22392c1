/** The factory loop of internal/factory/loop.go and the checks of internal/factory/check.go.

    The operations of a round are an arbitrary oracle. A finished round is recorded as a
    `Round`; the loop's contract says which rounds happened, what the event trace is and what
    each result means, for every oracle. */
module FactoryLoop {
  import opened Numbers
  import opened Options
  import opened TextLines

  // ---------------------------------------------------------------- checks

  datatype Kind = Review | Validate

  datatype Status = StatusPassed | StatusFailed | StatusErrored

  datatype Check = Check(name: string, kind: Kind, status: Status, feedback: string, error: string)

  datatype Severity = High | Medium | Low | Info

  datatype Finding = Finding(severity: Severity, file: string, line: int, body: string)

  datatype ReviewResult = ReviewResult(prompt: string, error: string, findings: seq<Finding>)

  /** A validation command's run; its output with the white space around it taken off. */
  datatype CommandRun = CommandRun(name: string, exitCode: int, output: string, runError: Option<string>)

  const OUTPUT_TAIL: nat := 4000
  const ELLIPSIS := "\U{00E2}\U{0080}\U{00A6}" // the bytes of the mark that stands for what was cut

  /** `review.Tail`: the last n bytes. */
  function TailOf(s: string, n: nat): string { if |s| <= n then s else ELLIPSIS + s[|s| - n..] }

  function Location(f: Finding): string { if f.line > 0 then f.file + ":" + Int(f.line) else f.file }

  predicate WorthChanging(f: Finding) { f.severity.High? || f.severity.Medium? }

  function SeverityName(s: Severity): string {
    match s case High => "high" case Medium => "medium" case Low => "low" case Info => "info"
  }

  function KindName(k: Kind): string {
    match k case Review => "review" case Validate => "validate"
  }

  function FindingLine(f: Finding): string {
    "- [" + SeverityName(f.severity) + "] " + Location(f) + ": " + f.body + "\n"
  }

  /** The lines of the findings worth changing, in order. */
  function FindingLines(fs: seq<Finding>): string {
    if fs == [] then ""
    else FindingLines(fs[..|fs| - 1]) + (if WorthChanging(fs[|fs| - 1]) then FindingLine(fs[|fs| - 1]) else "")
  }

  function TrimNewlines(s: string): string {
    if s != "" && s[|s| - 1] == '\n' then TrimNewlines(s[..|s| - 1]) else s
  }

  lemma {:induction false} FindingLinesEmpty(fs: seq<Finding>)
    ensures FindingLines(fs) == "" <==> forall i :: 0 <= i < |fs| ==> !WorthChanging(fs[i])
    ensures FindingLines(fs) != "" ==> FindingLines(fs)[0] == '-'
  {
    hide WorthChanging;
    if fs != [] {
      var front, f := fs[..|fs| - 1], fs[|fs| - 1];
      FindingLinesEmpty(front);
      assert forall i :: 0 <= i < |front| ==> front[i] == fs[i];
      DashFirst(f);
      hide FindingLine;
      if FindingLines(front) == "" && !WorthChanging(f) {
        assert forall i :: 0 <= i < |fs| - 1 ==> fs[i] == front[i];
      }
    }
  }

  lemma DashFirst(f: Finding)
    ensures FindingLine(f) != "" && FindingLine(f)[0] == '-'
  {
    hide SeverityName, Location;
  }

  lemma {:induction false} TrimKeepsFirst(s: string)
    requires s != "" && s[0] != '\n'
    ensures TrimNewlines(s) != "" && TrimNewlines(s)[0] == s[0]
  {
    if s[|s| - 1] == '\n' { TrimKeepsFirst(s[..|s| - 1]); }
  }

  /** `FromReview`: a review errors when it could not run, fails when some finding is worth
      changing, and passes otherwise; a failure always has something to say. */
  method FromReview(r: ReviewResult) returns (c: Check)
    ensures c.name == r.prompt && c.kind == Review
    ensures c.status.StatusErrored? <==> r.error != ""
    ensures c.status.StatusFailed? <==>
            r.error == "" && exists i :: 0 <= i < |r.findings| && WorthChanging(r.findings[i])
    ensures c.status.StatusFailed? ==> c.feedback == TrimNewlines(FindingLines(r.findings)) != ""
    ensures c == ReviewCheck(r)
  {
    c := Check(r.prompt, Review, StatusPassed, "", "");
    if r.error != "" {
      return c.(status := StatusErrored, error := r.error);
    }
    hide WorthChanging, FindingLine, TrimNewlines;
    var b := "";
    for i := 0 to |r.findings|
      invariant b == FindingLines(r.findings[..i])
    {
      var f := r.findings[i];
      assert r.findings[..i + 1][..i] == r.findings[..i];
      if !WorthChanging(f) {
        continue;
      }
      b := b + FindingLine(f);
    }
    assert r.findings[..|r.findings|] == r.findings;
    FindingLinesEmpty(r.findings);
    hide FindingLines;
    if |b| == 0 {
      return c;
    }
    TrimKeepsFirst(b);
    c := c.(status := StatusFailed, feedback := TrimNewlines(b));
  }

  function ReviewCheck(r: ReviewResult): Check {
    var c := Check(r.prompt, Review, StatusPassed, "", "");
    if r.error != "" then c.(status := StatusErrored, error := r.error)
    else if FindingLines(r.findings) == "" then c
    else c.(status := StatusFailed, feedback := TrimNewlines(FindingLines(r.findings)))
  }

  /** `FromCommand`. */
  function FromCommand(r: CommandRun): Check {
    var c := Check(r.name, Validate, StatusPassed, "", "");
    if r.runError.Some? then c.(status := StatusErrored, error := r.runError.value)
    else if r.exitCode == 0 then c
    else
      c.(status := StatusFailed,
         feedback := "Exited " + Int(r.exitCode) + ".\n```\n" + TailOf(r.output, OUTPUT_TAIL) + "\n```")
  }

  predicate Passed(checks: seq<Check>) {
    forall i :: 0 <= i < |checks| ==> checks[i].status.StatusPassed?
  }

  predicate AnyFailed(checks: seq<Check>) {
    exists i :: 0 <= i < |checks| && checks[i].status.StatusFailed?
  }

  predicate ReviewClean(r: ReviewResult) {
    r.error == "" && forall k :: 0 <= k < |r.findings| ==> !WorthChanging(r.findings[k])
  }

  predicate CommandClean(r: CommandRun) { r.runError.None? && r.exitCode == 0 }

  /** A round passes exactly when every review ran and found nothing worth changing, and every
      command ran and exited zero. */
  lemma PassedMeansClean(reviews: seq<ReviewResult>, commands: seq<CommandRun>)
    ensures Passed(seq(|reviews|, i requires 0 <= i < |reviews| => ReviewCheck(reviews[i]))
                   + seq(|commands|, i requires 0 <= i < |commands| => FromCommand(commands[i])))
      <==> (forall i :: 0 <= i < |reviews| ==> ReviewClean(reviews[i]))
           && (forall i :: 0 <= i < |commands| ==> CommandClean(commands[i]))
  {
    hide WorthChanging, FindingLines, TrimNewlines;
    var rs := seq(|reviews|, i requires 0 <= i < |reviews| => ReviewCheck(reviews[i]));
    var cs := seq(|commands|, i requires 0 <= i < |commands| => FromCommand(commands[i]));
    var all := rs + cs;
    forall i | 0 <= i < |reviews| ensures all[i].status.StatusPassed? <==> ReviewClean(reviews[i]) {
      FindingLinesEmpty(reviews[i].findings);
    }
    forall i | 0 <= i < |commands| ensures all[|reviews| + i].status.StatusPassed? <==> CommandClean(commands[i]) {
    }
    hide ReviewCheck, FromCommand, ReviewClean, CommandClean;
    if Passed(all) {
      forall i | 0 <= i < |commands| ensures CommandClean(commands[i]) {
        assert all[|reviews| + i].status.StatusPassed?;
      }
    }
  }

  // -------------------------------------------------------------- feedback

  const FEEDBACK_HEADER := "Checks failed.\n" // stands for the sentences that open a feedback prompt

  function Section(c: Check): string {
    "\n## " + KindName(c.kind) + ": " + c.name + "\n\n" + c.feedback + "\n"
  }

  /** The sections of the failed checks, in order. */
  function Sections(checks: seq<Check>): string {
    if checks == [] then ""
    else
      var front, c := checks[..|checks| - 1], checks[|checks| - 1];
      Sections(front) + (if c.status.StatusFailed? then Section(c) else "")
  }

  function Feedback(checks: seq<Check>): string {
    if Sections(checks) == "" then "" else FEEDBACK_HEADER + Sections(checks)
  }

  method RenderFeedback(checks: seq<Check>) returns (prompt: string)
    ensures prompt == Feedback(checks)
    ensures prompt == "" <==> !AnyFailed(checks)
  {
    hide Section, FEEDBACK_HEADER;
    var b := "";
    for i := 0 to |checks|
      invariant b == Sections(checks[..i])
    {
      assert checks[..i + 1][..i] == checks[..i];
      if !checks[i].status.StatusFailed? {
        continue;
      }
      b := b + Section(checks[i]);
    }
    assert checks[..|checks|] == checks;
    FeedbackEmpty(checks);
    if |b| == 0 {
      return "";
    }
    prompt := FEEDBACK_HEADER + b;
  }

  /** There is feedback exactly when some check failed. */
  lemma FeedbackEmpty(checks: seq<Check>)
    ensures Feedback(checks) == "" <==> !AnyFailed(checks)
  {
    SectionsEmpty(checks);
    assert |FEEDBACK_HEADER| > 0;
    hide Sections, FEEDBACK_HEADER;
  }

  lemma {:induction false} SectionsEmpty(checks: seq<Check>)
    ensures Sections(checks) == "" <==> !AnyFailed(checks)
  {
    if checks != [] {
      var front, c := checks[..|checks| - 1], checks[|checks| - 1];
      SectionsEmpty(front);
      assert Section(c) != "";
      hide Section;
      assert forall i :: 0 <= i < |front| ==> front[i] == checks[i];
      if AnyFailed(front) {
        var i :| 0 <= i < |front| && front[i].status.StatusFailed?;
        assert checks[i].status.StatusFailed?;
      }
    }
  }

  // ------------------------------------------------- what the feedback says

  lemma {:induction false} TrimNewlinesIs(s: string) returns (lost: string)
    ensures s == TrimNewlines(s) + lost && forall i :: 0 <= i < |lost| ==> lost[i] == '\n'
    ensures var t := TrimNewlines(s); t != "" ==> t[|t| - 1] != '\n'
  {
    lost := "";
    if s != "" && s[|s| - 1] == '\n' {
      lost := TrimNewlinesIs(s[..|s| - 1]);
      lost := lost + ['\n'];
    }
  }

  /** The text of a finding that is to be fixed. */
  function Said(f: Finding): string {
    "- [" + (if f.severity == High then "high" else "medium") + "] "
    + (if f.line > 0 then f.file + ":" + Int(f.line) else f.file) + ": " + f.body
  }

  /** A part of a review's feedback for every finding: its severity, place and body if it is high
      or medium, and nothing otherwise. */
  ghost predicate FindingParts(fs: seq<Finding>, parts: seq<string>) {
    && |parts| == |fs|
    && forall i :: 0 <= i < |fs| ==>
         parts[i] == if fs[i].severity == High || fs[i].severity == Medium then Said(fs[i]) + "\n" else ""
  }

  lemma {:induction false} FindingLinesAre(fs: seq<Finding>, parts: seq<string>)
    requires FindingParts(fs, parts)
    ensures FindingLines(fs) == Concat(parts)
  {
    hide Said, FindingLine;
    if fs != [] {
      FindingLinesAre(fs[..|fs| - 1], parts[..|parts| - 1]);
      var f := fs[|fs| - 1];
      if WorthChanging(f) { SaidIs(f); }
    }
  }

  lemma SaidIs(f: Finding)
    requires f.severity == High || f.severity == Medium
    ensures FindingLine(f) == Said(f) + "\n"
  {
    var name, place := SeverityName(f.severity), Location(f);
    assert "- [" + name + "] " + place + ": " + f.body + "\n" == ("- [" + name + "] " + place + ": " + f.body) + "\n";
  }

  /** A review fails exactly on its high and medium findings, and its feedback is their texts, in
      order, without the newlines at the end. */
  lemma ReviewFeedbackIs(r: ReviewResult, parts: seq<string>) returns (lost: string)
    requires FindingParts(r.findings, parts)
    ensures var c := ReviewCheck(r);
            var some := exists i :: 0 <= i < |r.findings|
                                    && (r.findings[i].severity == High || r.findings[i].severity == Medium);
            && (c.status.StatusErrored? <==> r.error != "") && (c.status.StatusFailed? <==> r.error == "" && some)
            && (c.status.StatusErrored? ==> c.error == r.error) && c.name == r.prompt && c.kind == Review
            && (c.status.StatusFailed? ==>
                  Concat(parts) == c.feedback + lost && forall i :: 0 <= i < |lost| ==> lost[i] == '\n')
  {
    FindingLinesAre(r.findings, parts);
    FindingLinesEmpty(r.findings);
    lost := TrimNewlinesIs(FindingLines(r.findings));
    hide FindingLines, TrimNewlines, FindingParts, Concat;
  }

  /** What is kept of a command's output. */
  function Kept(output: string): string { if |output| <= 4000 then output else output[|output| - 4000..] }

  /** A command fails exactly when it ran and exited non-zero, and its feedback holds the exit code
      and its output, the last 4000 bytes of a long one. */
  lemma CommandFeedbackIs(r: CommandRun) returns (mark: string)
    ensures var c := FromCommand(r);
            && (c.status.StatusErrored? <==> r.runError.Some?)
            && (c.status.StatusPassed? <==> r.runError.None? && r.exitCode == 0)
            && (c.status.StatusErrored? ==> c.error == r.runError.value) && c.name == r.name && c.kind == Validate
            && (c.status.StatusFailed? ==>
                  c.feedback == "Exited " + Int(r.exitCode) + ".\n```\n" + (mark + Kept(r.output)) + "\n```")
  {
    mark := if |r.output| <= 4000 then "" else ELLIPSIS;
    assert "" + r.output == r.output;
    hide Int;
  }

  /** A part of the prompt for every check: the kind and name of a failed one, then its feedback;
      nothing for the others. */
  ghost predicate PromptParts(checks: seq<Check>, parts: seq<string>) {
    && |parts| == |checks|
    && forall i :: 0 <= i < |checks| ==>
         parts[i] == if checks[i].status != StatusFailed then "" else
           "\n## " + (if checks[i].kind == Review then "review" else "validate") + ": " + checks[i].name + "\n\n"
           + checks[i].feedback + "\n"
  }

  lemma {:induction false} SectionsAre(checks: seq<Check>, parts: seq<string>)
    requires PromptParts(checks, parts)
    ensures Sections(checks) == Concat(parts)
  {
    if checks != [] {
      var c := checks[|checks| - 1];
      assert parts[|parts| - 1] == if c.status.StatusFailed? then Section(c) else "";
      SectionsAre(checks[..|checks| - 1], parts[..|parts| - 1]);
      hide Section;
    }
  }

  /** The prompt that feeds failures back says, for every failed check in order, its kind, its name
      and all of its feedback, and nothing else beyond the opening sentences. */
  lemma FeedbackIs(checks: seq<Check>, parts: seq<string>)
    requires PromptParts(checks, parts)
    ensures Feedback(checks) == if AnyFailed(checks) then FEEDBACK_HEADER + Concat(parts) else ""
  {
    SectionsAre(checks, parts);
    SectionsEmpty(checks);
    hide Sections, PromptParts, FEEDBACK_HEADER, AnyFailed, Concat;
  }

  function FailedOnly(checks: seq<Check>): seq<Check> {
    if checks == [] then []
    else
      var front, c := checks[..|checks| - 1], checks[|checks| - 1];
      FailedOnly(front) + (if c.status.StatusFailed? then [c] else [])
  }

  /** Checks that passed or could not run leave no trace in the feedback. */
  lemma {:induction false} FeedbackIsAboutFailures(checks: seq<Check>)
    ensures Sections(FailedOnly(checks)) == Sections(checks)
    ensures Feedback(FailedOnly(checks)) == Feedback(checks)
  {
    hide Section, FEEDBACK_HEADER;
    if checks != [] {
      var front, c := checks[..|checks| - 1], checks[|checks| - 1];
      FeedbackIsAboutFailures(front);
      if c.status.StatusFailed? {
        assert (FailedOnly(front) + [c])[..|FailedOnly(front)|] == FailedOnly(front);
      } else {
        assert FailedOnly(checks) == FailedOnly(front) && Sections(checks) == Sections(front);
      }
    }
  }

  // -------------------------------------------------------------- the loop

  datatype Turn = Turn(summary: string)

  datatype Change = Change(fingerprint: string, stat: string)

  predicate Empty(c: Change) { c.stat == "" }

  datatype Result = ResultPassed | ResultExhausted | ResultStuck | ResultNoChange

  datatype Outcome = Outcome(result: Option<Result>, rounds: nat, change: Change, checks: seq<Check>)

  const NO_OUTCOME := Outcome(None, 0, Change("", ""), [])

  /** What each operation answers in each round; `None` is a step that could not run. */
  datatype Steps = Steps(
    implement: (nat, string) -> Option<Turn>,
    collect: nat -> Option<Change>,
    check: nat -> Option<seq<Check>>)

  datatype Error =
    | NoAttempts
    | NoPrompt
    | ImplementError(round: nat)
    | CollectError(round: nat)
    | CheckError(round: nat)

  datatype Event =
    | Implementing(round: nat, prompt: string)
    | Implemented(round: nat, turn: Turn)
    | Collected(round: nat, change: Change)
    | Checking(round: nat)
    | Checked(round: nat, checks: seq<Check>)

  /** A round that was checked. `prompt` is empty when it had no implementer turn. */
  datatype Round = Round(prompt: string, change: Change, checks: seq<Check>)

  function TurnOf(steps: Steps, k: nat, prompt: string): Turn {
    var t := steps.implement(k, prompt); if t.Some? then t.value else Turn("")
  }

  /** The events of a turn that gave a change to check; none without a turn. */
  function TurnEvents(steps: Steps, k: nat, p: string, c: Change): seq<Event> {
    if p == "" then [] else [Implementing(k, p), Implemented(k, TurnOf(steps, k, p)), Collected(k, c)]
  }

  /** The events of checked round k (numbered from 1). */
  function RoundEvents(steps: Steps, k: nat, r: Round): seq<Event> {
    TurnEvents(steps, k, r.prompt, r.change) + [Checking(k), Checked(k, r.checks)]
  }

  /** The events of a list of checked rounds, numbered 1, 2, 3, ... */
  function Trace(steps: Steps, h: seq<Round>): seq<Event> {
    if h == [] then [] else Trace(steps, h[..|h| - 1]) + RoundEvents(steps, |h|, h[|h| - 1])
  }

  /** The prompt the round after h starts with, empty for no turn. */
  function NextPrompt(h: seq<Round>, prompt: string): string {
    if h == [] then prompt else Feedback(h[|h| - 1].checks)
  }

  /** One more round happened after h, as the design promises: a turn exactly when a check of the
      round before failed, prompted with the feedback of exactly those checks; a turn's change is
      not empty and differs from the one checked before; without a turn the same change is
      checked again. */
  ghost predicate GoodRound(steps: Steps, prompt: string, h: seq<Round>, r: Round) {
    var k := |h| + 1;
    && (r.prompt != "" <==> h == [] || AnyFailed(h[|h| - 1].checks))
    && r.prompt == NextPrompt(h, prompt)
    && (r.prompt != "" ==> steps.implement(k, r.prompt).Some? && steps.collect(k) == Some(r.change))
    && (r.prompt != "" && h != [] ==> r.change.fingerprint != h[|h| - 1].change.fingerprint)
    && (r.prompt == "" ==> r.change == h[|h| - 1].change)
    && !Empty(r.change)
    && steps.check(k) == Some(r.checks)
    && (h != [] ==> !Passed(h[|h| - 1].checks))
  }

  ghost predicate History(steps: Steps, prompt: string, h: seq<Round>) {
    forall k :: 0 <= k < |h| ==> GoodRound(steps, prompt, h[..k], h[k])
  }

  /** How the run ends after the checked rounds h. */
  datatype Ending =
    | Finished(result: Result)
    | StoppedAfterTurn(result: Result, change: Change)
    | Broken(error: Error)

  /** How, if at all, the implementer turn of round k ends the run. */
  function TurnEnds(steps: Steps, k: nat, p: string, last: Option<Change>): Option<Ending> {
    if steps.implement(k, p).None? then Some(Broken(ImplementError(k)))
    else if steps.collect(k).None? then Some(Broken(CollectError(k)))
    else if Empty(steps.collect(k).value) then Some(StoppedAfterTurn(ResultNoChange, steps.collect(k).value))
    else if last.Some? && steps.collect(k).value.fingerprint == last.value.fingerprint then
      Some(StoppedAfterTurn(ResultStuck, steps.collect(k).value))
    else None
  }

  /** What must happen next after the rounds h, read off the oracle; `None` when another round is
      checked. */
  function EndAfter(steps: Steps, attempts: int, prompt: string, h: seq<Round>): Option<Ending> {
    var k, p := |h| + 1, NextPrompt(h, prompt);
    if h != [] && Passed(h[|h| - 1].checks) then Some(Finished(ResultPassed))
    else if h != [] && |h| == attempts then Some(Finished(ResultExhausted))
    else if p != "" && TurnEnds(steps, k, p, LastOf(h)).Some? then TurnEnds(steps, k, p, LastOf(h))
    else if steps.check(k).None? then Some(Broken(CheckError(k)))
    else None
  }

  /** The events of the round that was cut short. */
  function Tail(steps: Steps, k: nat, p: string, e: Ending): seq<Event> {
    match e
    case Finished(_) => []
    case StoppedAfterTurn(_, c) => [Implementing(k, p), Implemented(k, TurnOf(steps, k, p)), Collected(k, c)]
    case Broken(ImplementError(_)) => [Implementing(k, p)]
    case Broken(CollectError(_)) => [Implementing(k, p), Implemented(k, TurnOf(steps, k, p))]
    case Broken(CheckError(_)) => TurnEvents(steps, k, p, CollectedChange(steps, k)) + [Checking(k)]
    case Broken(_) => []
  }

  function CollectedChange(steps: Steps, k: nat): Change {
    var c := steps.collect(k); if c.Some? then c.value else Change("", "")
  }

  /** The change the outcome carries: the last one accepted, or the empty one that ended the
      run. */
  function FinalChange(steps: Steps, prompt: string, h: seq<Round>, e: Ending): Change {
    match e
    case StoppedAfterTurn(ResultNoChange, c) => c
    case Broken(CheckError(k)) => if NextPrompt(h, prompt) == "" then LastChange(h) else CollectedChange(steps, k)
    case _ => LastChange(h)
  }

  function LastChange(h: seq<Round>): Change {
    if h == [] then Change("", "") else h[|h| - 1].change
  }

  /** What a run that checked the rounds h and then ended as `end` reports. */
  ghost predicate Reports(steps: Steps, attempts: int, prompt: string, h: seq<Round>, end: Ending,
      out: Outcome, error: Option<Error>, trace: seq<Event>)
  {
    && History(steps, prompt, h) && |h| <= attempts
    && EndAfter(steps, attempts, prompt, h) == Some(end)
    && trace == Trace(steps, h) + Tail(steps, |h| + 1, NextPrompt(h, prompt), end)
    && out == Outcome(if end.Broken? then None else Some(end.result), |h|, FinalChange(steps, prompt, h, end),
                      if h == [] then [] else h[|h| - 1].checks)
    && error == (if end.Broken? then Some(end.error) else None)
  }

  /** An implementer turn of round k: either it ends the run, or it gives a change to check. */
  method RunTurn(k: nat, prompt: string, steps: Steps, last: Option<Change>)
      returns (end: Option<Ending>, change: Change, events: seq<Event>)
    ensures end == TurnEnds(steps, k, prompt, last)
    ensures end.None? ==> steps.collect(k) == Some(change) && !Empty(change)
    ensures end.None? && prompt != "" ==> events == TurnEvents(steps, k, prompt, change)
    ensures end.Some? ==> events == Tail(steps, k, prompt, end.value)
  {
    change := Change("", "");
    events := [Implementing(k, prompt)];
    var turn := steps.implement(k, prompt);
    if turn.None? {
      return Some(Broken(ImplementError(k))), change, events;
    }
    events := events + [Implemented(k, turn.value)];
    var collected := steps.collect(k);
    if collected.None? {
      return Some(Broken(CollectError(k))), change, events;
    }
    change := collected.value;
    events := events + [Collected(k, change)];
    if Empty(change) {
      return Some(StoppedAfterTurn(ResultNoChange, change)), change, events;
    } else if last.Some? && change.fingerprint == last.value.fingerprint {
      return Some(StoppedAfterTurn(ResultStuck, change)), change, events;
    }
    end := None;
  }

  /** `Loop.Run`, for any operations. */
  method Run(attempts: int, prompt0: string, steps: Steps)
      returns (out: Outcome, error: Option<Error>, trace: seq<Event>, ghost h: seq<Round>, ghost end: Ending)
    ensures attempts < 1 ==> out == NO_OUTCOME && error == Some(NoAttempts) && trace == []
    ensures attempts >= 1 && prompt0 == "" ==> out == NO_OUTCOME && error == Some(NoPrompt) && trace == []
    ensures attempts >= 1 && prompt0 != "" ==> Reports(steps, attempts, prompt0, h, end, out, error, trace)
  {
    hide History, EndAfter, Tail, NextPrompt, FinalChange, TurnEnds, Passed, AnyFailed, Trace, Empty, RoundEvents,
        TurnEvents, Feedback;
    h, end, trace := [], Broken(NoAttempts), [];
    if attempts < 1 {
      return NO_OUTCOME, Some(NoAttempts), [], [], end;
    }
    if prompt0 == "" {
      return NO_OUTCOME, Some(NoPrompt), [], [], end;
    }
    var prompt, round := prompt0, 1;
    out, error := NO_OUTCOME, None;
    NothingYet(steps, prompt0);
    while true
      invariant round == |h| + 1 <= attempts
      invariant History(steps, prompt0, h) && trace == Trace(steps, h)
      invariant prompt == NextPrompt(h, prompt0)
      invariant h != [] ==> !Passed(h[|h| - 1].checks) && !Empty(LastChange(h))
      invariant out == Outcome(None, |h|, LastChange(h), if h == [] then [] else h[|h| - 1].checks)
      invariant error == None
      decreases attempts - round
    {
      var events := [];
      if prompt != "" {
        var turnEnd, change;
        var last := if round > 1 then Some(out.change) else None;
        turnEnd, change, events := RunTurn(round, prompt, steps, last);
        if turnEnd.Some? {
          end, trace := turnEnd.value, trace + events;
          EndsInTurn(steps, attempts, prompt0, h, end);
          match turnEnd.value {
            case StoppedAfterTurn(ResultNoChange, c) => out := out.(result := Some(ResultNoChange), change := c);
            case StoppedAfterTurn(r, _) => out := out.(result := Some(r));
            case Broken(e) => error := Some(e);
          }
          return;
        }
        out := out.(change := change);
      }
      NoTurnNoEvents(steps, round, out.change);
      events := events + [Checking(round)];
      var checks := steps.check(round);
      if checks.None? {
        EndsInCheck(steps, attempts, prompt0, h, out.change);
        trace := trace + events;
        error, end := Some(CheckError(round)), Broken(CheckError(round));
        return;
      }
      out := out.(rounds := round, checks := checks.value);
      events := events + [Checked(round, checks.value)];
      trace := trace + events;
      ghost var r := Round(prompt, out.change, checks.value);
      MakesGoodRound(steps, prompt0, h, r);
      AnotherRound(steps, prompt0, h, r, events);
      h := h + [r];
      EndsAfterCheck(steps, attempts, prompt0, h);

      if Passed(checks.value) {
        out, end := out.(result := Some(ResultPassed)), Finished(ResultPassed);
        return;
      }
      if round == attempts {
        out, end := out.(result := Some(ResultExhausted)), Finished(ResultExhausted);
        return;
      }
      prompt := RenderFeedback(checks.value);
      round := round + 1;
    }
  }

  lemma NothingYet(steps: Steps, prompt: string)
    ensures History(steps, prompt, []) && Trace(steps, []) == [] && NextPrompt([], prompt) == prompt
  {
  }

  lemma NoTurnNoEvents(steps: Steps, k: nat, c: Change)
    ensures TurnEvents(steps, k, "", c) == []
  {
  }

  function LastOf(h: seq<Round>): Option<Change> { if h == [] then None else Some(h[|h| - 1].change) }

  lemma EndsInTurn(steps: Steps, attempts: int, prompt: string, h: seq<Round>, e: Ending)
    requires |h| < attempts && NextPrompt(h, prompt) != "" && (h != [] ==> !Passed(h[|h| - 1].checks))
    requires TurnEnds(steps, |h| + 1, NextPrompt(h, prompt), LastOf(h)) == Some(e)
    ensures EndAfter(steps, attempts, prompt, h) == Some(e)
    ensures FinalChange(steps, prompt, h, e) ==
            if e.StoppedAfterTurn? && e.result.ResultNoChange? then e.change else LastChange(h)
    ensures !e.Finished?
  {
    hide Passed, Feedback, Empty;
  }

  lemma EndsInCheck(steps: Steps, attempts: int, prompt: string, h: seq<Round>, c: Change)
    requires var p := NextPrompt(h, prompt);
      && |h| < attempts && prompt != "" && (h != [] ==> !Passed(h[|h| - 1].checks))
      && (if p == "" then c == LastChange(h) else
            TurnEnds(steps, |h| + 1, p, LastOf(h)).None? && steps.collect(|h| + 1) == Some(c))
      && steps.check(|h| + 1).None?
    ensures var e := Broken(CheckError(|h| + 1));
      && EndAfter(steps, attempts, prompt, h) == Some(e)
      && Tail(steps, |h| + 1, NextPrompt(h, prompt), e)
         == TurnEvents(steps, |h| + 1, NextPrompt(h, prompt), c) + [Checking(|h| + 1)]
      && FinalChange(steps, prompt, h, e) == c
  {
    hide Passed, Feedback, Empty;
  }

  lemma EndsAfterCheck(steps: Steps, attempts: int, prompt: string, h: seq<Round>)
    requires h != []
    ensures Passed(h[|h| - 1].checks) ==> EndAfter(steps, attempts, prompt, h) == Some(Finished(ResultPassed))
    ensures !Passed(h[|h| - 1].checks) && |h| == attempts ==>
        EndAfter(steps, attempts, prompt, h) == Some(Finished(ResultExhausted))
    ensures forall r :: FinalChange(steps, prompt, h, Finished(r)) == LastChange(h)
    ensures forall r :: Tail(steps, |h| + 1, NextPrompt(h, prompt), Finished(r)) == []
    ensures Trace(steps, h) + [] == Trace(steps, h)
    ensures NextPrompt(h, prompt) == Feedback(h[|h| - 1].checks)
  {
    hide Passed, Feedback, Empty, Trace;
  }

  lemma MakesGoodRound(steps: Steps, prompt: string, h: seq<Round>, r: Round)
    requires prompt != "" && r.prompt == NextPrompt(h, prompt)
    requires if r.prompt == "" then r.change == LastChange(h) else
               TurnEnds(steps, |h| + 1, r.prompt, LastOf(h)).None? && steps.collect(|h| + 1) == Some(r.change)
    requires !Empty(r.change) || (h != [] && r.change == LastChange(h) && !Empty(LastChange(h)))
    requires steps.check(|h| + 1) == Some(r.checks)
    requires h != [] ==> !Passed(h[|h| - 1].checks)
    ensures GoodRound(steps, prompt, h, r)
  {
    if h != [] { FeedbackEmpty(h[|h| - 1].checks); }
    hide Passed, AnyFailed, Feedback;
  }

  lemma AnotherRound(steps: Steps, prompt: string, h: seq<Round>, r: Round, events: seq<Event>)
    requires History(steps, prompt, h) && GoodRound(steps, prompt, h, r)
    requires events == TurnEvents(steps, |h| + 1, r.prompt, r.change) + [Checking(|h| + 1)]
                       + [Checked(|h| + 1, r.checks)]
    ensures History(steps, prompt, h + [r])
    ensures Trace(steps, h + [r]) == Trace(steps, h) + events
    ensures LastChange(h + [r]) == r.change
  {
    hide GoodRound, TurnEvents;
    assert (h + [r])[..|h|] == h;
    assert forall k :: 0 <= k < |h| ==> (h + [r])[..k] == h[..k] && (h + [r])[k] == h[k];
    assert events == RoundEvents(steps, |h| + 1, r);
  }

  lemma EndMeans(steps: Steps, attempts: int, prompt: string, h: seq<Round>, end: Ending)
    requires attempts >= 1 && prompt != "" && |h| <= attempts && EndAfter(steps, attempts, prompt, h) == Some(end)
    ensures end == Finished(ResultPassed) <==> h != [] && Passed(h[|h| - 1].checks)
    ensures end == Finished(ResultExhausted) <==> |h| == attempts && !Passed(h[|h| - 1].checks)
    ensures end.Finished? ==> h != [] && (end.result.ResultPassed? || end.result.ResultExhausted?)
    ensures end.StoppedAfterTurn? ==>
      && steps.collect(|h| + 1) == Some(end.change) && NextPrompt(h, prompt) != ""
      && (end.result.ResultNoChange? <==> Empty(end.change)) && (end.result.ResultNoChange? || end.result.ResultStuck?)
      && (end.result.ResultStuck? ==> h != [] && end.change.fingerprint == LastChange(h).fingerprint)
  {
    hide Passed, Feedback, Empty;
  }

  /** What each result means, for every oracle. */
  lemma ResultsAreExact(steps: Steps, attempts: int, prompt: string, h: seq<Round>, end: Ending,
      out: Outcome, error: Option<Error>, trace: seq<Event>)
    requires attempts >= 1 && prompt != "" && Reports(steps, attempts, prompt, h, end, out, error, trace)
    ensures out.result.None? <==> error.Some?
    ensures out.result == Some(ResultPassed) <==> h != [] && Passed(out.checks)
    ensures out.result == Some(ResultExhausted) <==> out.rounds == attempts && !Passed(out.checks)
    ensures out.result.Some? ==> (out.result.value.ResultNoChange? <==> Empty(out.change))
    ensures out.result == Some(ResultNoChange) ==> steps.collect(out.rounds + 1) == Some(out.change)
    ensures out.result == Some(ResultStuck) ==>
      && AnyFailed(out.checks) && steps.collect(out.rounds + 1).Some?
      && steps.collect(out.rounds + 1).value.fingerprint == out.change.fingerprint
  {
    if h != [] {
      assert GoodRound(steps, prompt, h[..|h| - 1], h[|h| - 1]);
      FeedbackEmpty(h[|h| - 1].checks);
    }
    EndMeans(steps, attempts, prompt, h, end);
    hide Passed, AnyFailed, Feedback, Trace, Tail, History, EndAfter, Empty;
  }

  /** Over a whole run: a turn happened in a later round exactly when a check failed in the round
      before, and then the change is new; otherwise the same change was checked again. */
  lemma TurnsFollowFailures(steps: Steps, prompt: string, h: seq<Round>, k: nat)
    requires prompt != "" && History(steps, prompt, h) && 0 < k < |h|
    ensures h[k].prompt != "" <==> AnyFailed(h[k - 1].checks)
    ensures h[k].prompt == Feedback(h[k - 1].checks)
    ensures if h[k].prompt != "" then h[k].change.fingerprint != h[k - 1].change.fingerprint
            else h[k].change == h[k - 1].change
    ensures !Passed(h[k - 1].checks)
  {
    hide Feedback, Passed, AnyFailed, Empty;
    assert GoodRound(steps, prompt, h[..k], h[k]) && h[..k][k - 1] == h[k - 1] && h[..k] != [];
    hide History;
  }

  /** The events of a checked round: a turn, if it had one, and its check. */
  lemma TraceIs(steps: Steps, h: seq<Round>, r: Round, turn: Turn)
    requires r.prompt != "" ==> steps.implement(|h| + 1, r.prompt) == Some(turn)
    ensures var k := |h| + 1;
            Trace(steps, h + [r]) == Trace(steps, h)
              + (if r.prompt == "" then []
                 else [Implementing(k, r.prompt), Implemented(k, turn), Collected(k, r.change)])
              + [Checking(k), Checked(k, r.checks)]
    ensures Trace(steps, []) == []
  {
    assert (h + [r])[..|h|] == h;
    hide Trace;
    Regroup(Trace(steps, h), TurnEvents(steps, |h| + 1, r.prompt, r.change),
            [Checking(|h| + 1), Checked(|h| + 1, r.checks)]);
  }

  /** How a run ends after the rounds h, step by step: what fails, what is reported, which change
      the outcome carries, and the events after those rounds. */
  lemma EndingIs(steps: Steps, attempts: int, prompt: string, h: seq<Round>, end: Ending,
      out: Outcome, error: Option<Error>, trace: seq<Event>)
    requires attempts >= 1 && prompt != "" && Reports(steps, attempts, prompt, h, end, out, error, trace)
    ensures out.rounds == |h| && out.checks == if h == [] then [] else h[|h| - 1].checks
    ensures var k := |h| + 1;
      var p := if h == [] then prompt else Feedback(h[|h| - 1].checks);
      var last := if h == [] then Change("", "") else h[|h| - 1].change;
      var begun := Trace(steps, h) + [Implementing(k, p)];
      if h != [] && Passed(h[|h| - 1].checks) then
        out.result == Some(ResultPassed) && out.change == last && error == None && trace == Trace(steps, h)
      else if |h| == attempts then
        out.result == Some(ResultExhausted) && out.change == last && error == None && trace == Trace(steps, h)
      else if p == "" then
        error == Some(CheckError(k)) && out.change == last && steps.check(k).None?
        && trace == Trace(steps, h) + [Checking(k)]
      else if steps.implement(k, p).None? then
        error == Some(ImplementError(k)) && out.change == last && trace == begun
      else
        var turned := begun + [Implemented(k, steps.implement(k, p).value)];
        if steps.collect(k).None? then error == Some(CollectError(k)) && out.change == last && trace == turned
        else
          var c := steps.collect(k).value;
          if c.stat == "" then
            out.result == Some(ResultNoChange) && out.change == c && error == None
            && trace == turned + [Collected(k, c)]
          else if h != [] && c.fingerprint == last.fingerprint then
            out.result == Some(ResultStuck) && out.change == last && error == None
            && trace == turned + [Collected(k, c)]
          else
            error == Some(CheckError(k)) && out.change == c && steps.check(k).None?
            && trace == turned + [Collected(k, c), Checking(k)]
    ensures error.Some? ==> out.result == None
  {
    hide Trace, Feedback, Passed, History;
    var k := |h| + 1;
    var p := NextPrompt(h, prompt);
    assert Trace(steps, h) + [] == Trace(steps, h);
    if p != "" && steps.implement(k, p).Some? && steps.collect(k).Some? {
      var t, c := steps.implement(k, p).value, steps.collect(k).value;
      OneByOne(Trace(steps, h), Implementing(k, p), Implemented(k, t), Collected(k, c), Checking(k));
    }
  }

  lemma OneByOne(trace: seq<Event>, a: Event, b: Event, c: Event, d: Event)
    ensures trace + [a, b] == trace + [a] + [b] && trace + [a, b, c] == trace + [a] + [b] + [c]
    ensures trace + ([a, b, c] + [d]) == trace + [a] + [b] + [c, d]
  {
  }

  // ------------------------------------------ what reaches the implementer

  /** One part of a concatenation stands in it. */
  lemma {:induction false} PartStands(parts: seq<string>, i: nat) returns (before: string, after: string)
    requires i < |parts|
    ensures Concat(parts) == before + parts[i] + after
  {
    var front := parts[..|parts| - 1];
    if i == |front| {
      before, after := Concat(front), "";
      assert before + parts[i] + after == before + parts[i];
    } else {
      before, after := PartStands(front, i);
      assert front[i] == parts[i];
      Regroup(before + parts[i], after, parts[|parts| - 1]);
      after := after + parts[|parts| - 1];
    }
  }

  /** The text stands in the prompt. */
  ghost predicate StandsIn(text: string, prompt: string) { exists a, z :: prompt == a + text + z }

  lemma StandsThrough(a: string, b: string, c: string)
    requires StandsIn(a, b) && StandsIn(b, c)
    ensures StandsIn(a, c)
  {
    var x, y :| b == x + a + y;
    var u, v :| c == u + b + v;
    assert c == (u + x) + a + (y + v);
  }

  /** After a failed check, the next round's prompt holds its name and all of its feedback, and the
      implementer is given that prompt. */
  lemma FeedbackReachesImplementer(steps: Steps, prompt: string, h: seq<Round>, k: nat, i: nat)
    requires prompt != "" && History(steps, prompt, h) && 0 < k < |h| && i < |h[k - 1].checks|
    requires h[k - 1].checks[i].status == StatusFailed
    ensures StandsIn(h[k - 1].checks[i].name + "\n\n" + h[k - 1].checks[i].feedback, h[k].prompt)
    ensures StandsIn(h[k - 1].checks[i].feedback, h[k].prompt)
    ensures steps.implement(k + 1, h[k].prompt).Some?
  {
    var checks := h[k - 1].checks;
    ImplementerIsAsked(steps, prompt, h, k, i);
    hide Feedback, History;
    FeedbackHolds(checks, i);
    var c := checks[i];
    assert c.name + "\n\n" + c.feedback == (c.name + "\n\n") + c.feedback + "";
    StandsThrough(c.feedback, c.name + "\n\n" + c.feedback, h[k].prompt);
  }

  lemma ImplementerIsAsked(steps: Steps, prompt: string, h: seq<Round>, k: nat, i: nat)
    requires prompt != "" && History(steps, prompt, h) && 0 < k < |h| && i < |h[k - 1].checks|
    requires h[k - 1].checks[i].status == StatusFailed
    ensures h[k].prompt == Feedback(h[k - 1].checks) && steps.implement(k + 1, h[k].prompt).Some?
  {
    hide Feedback, Passed, Empty;
    assert GoodRound(steps, prompt, h[..k], h[k]) && |h[..k]| == k;
    assert AnyFailed(h[k - 1].checks);
    hide AnyFailed, GoodRound;
    TurnsFollowFailures(steps, prompt, h, k);
    hide History;
    PromptedRound(steps, prompt, h[..k], h[k]);
  }

  lemma PromptedRound(steps: Steps, prompt: string, h: seq<Round>, r: Round)
    requires GoodRound(steps, prompt, h, r) && r.prompt != ""
    ensures steps.implement(|h| + 1, r.prompt).Some?
  {
    hide NextPrompt, AnyFailed, Passed;
  }

  lemma FeedbackHolds(checks: seq<Check>, i: nat)
    requires i < |checks| && checks[i].status == StatusFailed
    ensures StandsIn(checks[i].name + "\n\n" + checks[i].feedback, Feedback(checks))
  {
    var parts := PartsOf(checks);
    FeedbackIs(checks, parts);
    PartHolds(checks, parts, i);
    assert AnyFailed(checks);
    hide PromptParts, Feedback, AnyFailed, Concat, FEEDBACK_HEADER;
    var before, after := PartStands(parts, i);
    Regroup(FEEDBACK_HEADER, before + parts[i], after);
    Regroup(FEEDBACK_HEADER, before, parts[i]);
    assert Feedback(checks) == (FEEDBACK_HEADER + before) + parts[i] + after;
    StandsThrough(checks[i].name + "\n\n" + checks[i].feedback, parts[i], Feedback(checks));
  }

  lemma PartsOf(checks: seq<Check>) returns (parts: seq<string>)
    ensures PromptParts(checks, parts)
  {
    parts := seq(|checks|, i requires 0 <= i < |checks| =>
      if checks[i].status != StatusFailed then "" else
        "\n## " + (if checks[i].kind == Review then "review" else "validate") + ": " + checks[i].name + "\n\n"
        + checks[i].feedback + "\n");
  }

  lemma PartHolds(checks: seq<Check>, parts: seq<string>, i: nat)
    requires PromptParts(checks, parts) && i < |checks| && checks[i].status == StatusFailed
    ensures StandsIn(checks[i].name + "\n\n" + checks[i].feedback, parts[i])
  {
    var c := checks[i];
    var a := "\n## " + (if c.kind == Review then "review" else "validate") + ": ";
    assert parts[i] == a + (c.name + "\n\n" + c.feedback) + "\n";
  }

  /** So every high or medium finding of a review that ran reaches the implementer: its severity,
      its place and its body, but for newlines at the very end of the review's feedback. */
  lemma FindingReachesImplementer(steps: Steps, prompt: string, h: seq<Round>, k: nat, i: nat, r: ReviewResult, j: nat)
      returns (said: string, lost: string)
    requires prompt != "" && History(steps, prompt, h) && 0 < k < |h| && i < |h[k - 1].checks|
    requires h[k - 1].checks[i] == ReviewCheck(r) && r.error == "" && j < |r.findings|
    requires r.findings[j].severity == High || r.findings[j].severity == Medium
    ensures Said(r.findings[j]) == said + lost && forall i :: 0 <= i < |lost| ==> lost[i] == '\n'
    ensures StandsIn(said, h[k].prompt)
  {
    hide ReviewCheck, History;
    said, lost := FindingStands(r, j);
    FeedbackReachesImplementer(steps, prompt, h, k, i);
    StandsThrough(said, ReviewCheck(r).feedback, h[k].prompt);
  }

  lemma FindingStands(r: ReviewResult, j: nat) returns (said: string, lost: string)
    requires r.error == "" && j < |r.findings| && (r.findings[j].severity == High || r.findings[j].severity == Medium)
    ensures ReviewCheck(r).status == StatusFailed
    ensures Said(r.findings[j]) == said + lost && forall i :: 0 <= i < |lost| ==> lost[i] == '\n'
    ensures StandsIn(said, ReviewCheck(r).feedback)
  {
    hide ReviewCheck, Concat, Said;
    var f := r.findings[j];
    SaidBegins(f);
    var parts := FindingPartsOf(r.findings);
    assert parts[j] == Said(f) + "\n";
    lost := ReviewFeedbackIs(r, parts);
    hide FindingParts;
    var before, after := PartStands(parts, j);
    Regroup(before + Said(f), "\n", after);
    Regroup(before, Said(f), "\n");
    said, lost := CutFromEnd(ReviewCheck(r).feedback, lost, before, Said(f), "\n" + after);
  }

  lemma SaidBegins(f: Finding)
    ensures Said(f) != "" && Said(f)[0] == '-'
  {
  }

  lemma FindingPartsOf(fs: seq<Finding>) returns (parts: seq<string>)
    ensures FindingParts(fs, parts)
  {
    parts := seq(|fs|, i requires 0 <= i < |fs| =>
      if fs[i].severity == High || fs[i].severity == Medium then Said(fs[i]) + "\n" else "");
  }

  /** A text taken off its newlines at the end loses at most newlines of what stands in it. */
  lemma CutFromEnd(t: string, off: string, before: string, text: string, after: string)
      returns (said: string, lost: string)
    requires t + off == before + text + after && forall i :: 0 <= i < |off| ==> off[i] == '\n'
    requires text != "" && text[0] != '\n'
    ensures text == said + lost && (forall i :: 0 <= i < |lost| ==> lost[i] == '\n') && StandsIn(said, t)
  {
    var whole := t + off;
    assert whole[|before|] == text[0];
    assert |t| > |before|;
    if |t| >= |before| + |text| {
      said, lost := text, "";
      AllKept(t, off, before, text, after);
    } else {
      var n := |t| - |before|;
      said, lost := text[..n], text[n..];
      SomeKept(t, off, before, text, after, n);
    }
  }

  lemma AllKept(t: string, off: string, before: string, text: string, after: string)
    requires t + off == before + text + after && |t| >= |before| + |text|
    ensures StandsIn(text, t)
  {
    var whole := t + off;
    assert t == whole[..|t|];
    assert t == before + text + t[|before| + |text|..];
  }

  lemma SomeKept(t: string, off: string, before: string, text: string, after: string, n: nat)
    requires t + off == before + text + after && |t| == |before| + n && n < |text|
    ensures StandsIn(text[..n], t) && forall i :: 0 <= i < |text| - n ==> i < |off| && text[n..][i] == off[i]
  {
    var whole := t + off;
    assert t == whole[..|t|];
    assert t == before + text[..n] + "";
    forall i | 0 <= i < |text| - n ensures i < |off| && text[n..][i] == off[i] {
      assert whole[|t| + i] == text[n + i];
    }
  }

  /** And so does the output of every command that ran and failed. */
  lemma OutputReachesImplementer(steps: Steps, prompt: string, h: seq<Round>, k: nat, i: nat, r: CommandRun)
    requires prompt != "" && History(steps, prompt, h) && 0 < k < |h| && i < |h[k - 1].checks|
    requires h[k - 1].checks[i] == FromCommand(r) && r.runError.None? && r.exitCode != 0
    ensures StandsIn(Kept(r.output), h[k].prompt) && StandsIn("Exited " + Int(r.exitCode), h[k].prompt)
  {
    var mark := CommandFeedbackIs(r);
    var c := FromCommand(r);
    hide FromCommand, History, Kept, Int;
    FeedbackReachesImplementer(steps, prompt, h, k, i);
    var head := "Exited " + Int(r.exitCode);
    OutputStands(c.feedback, head, mark, Kept(r.output));
    StandsThrough(Kept(r.output), c.feedback, h[k].prompt);
    StandsThrough(head, c.feedback, h[k].prompt);
  }

  lemma OutputStands(feedback: string, head: string, mark: string, kept: string)
    requires feedback == head + ".\n```\n" + (mark + kept) + "\n```"
    ensures StandsIn(kept, feedback) && StandsIn(head, feedback)
  {
    assert feedback == (head + ".\n```\n" + mark) + kept + "\n```";
    assert feedback == "" + head + (".\n```\n" + (mark + kept) + "\n```");
  }
}
