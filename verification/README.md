# A Dafny model of chunk-cli's stateful core

This project models, in Dafny, the parts of chunk-cli whose correctness depends on more than one
step: a redactor that sees a secret in pieces, a client that resumes a stream over a network that
drops anywhere, a macro expander over a cyclic table, a loop driven by operations it does not
control, a directory shared by processes that die, and a digest that must agree with a diff. Each
file models one component; every loop and every object whose fields the Go code updates is an
imperative method or class, proved against a specification function, and the promises are lemmas
about that function.

`dafny verify dfyconfig.toml` checks the whole project.

| file | models |
|---|---|
| `Redactor.dfy` | the streaming token redactor |
| `OutputStream.dfy`, `StallCount.dfy`, `Cursor.dfy` | reading a command's output over a network that drops; stalls and back-off; the resume cursor |
| `Sse.dfy`, `Wire.dfy` | the Server-Sent Events reader on bytes, and its meeting with the client |
| `CiText.dfy`, `CiConfig.dfy`, `CiGates.dfy`, `CiExtract.dfy` | parameter substitution, step expansion, which jobs gate a branch, and the mutating walk |
| `FactoryLoop.dfy` | the implement / check / feed back loop and its checks |
| `LineParser.dfy`, `TextLines.dfy` | the stream-json line parser |
| `Framing.dfy`, `Numbers.dfy`, `Strings.dfy`, `FileState.dfy` | length-prefixed hashing, decimal notation, sorting, the git-free tree state |
| `FileCache.dfy`, `SharedCache.dfy` | the file cache, used by one process and by many |
| `Retry.dfy` | the halving retry |
| `EventLog.dfy` | command-ID stamping |
| `Options.dfy` | values that may be absent |

## What the results say

**Redactor.** For every way of splitting the text into writes, the forwarded text is the
leftmost-longest replacement over the whole text, no moment shows a token, and what is shown does
not depend on which token stood in the text, wherever it stood (`SecretIndependent`). After every write the state is a function of the text
received: complete lines redacted, the current line up to the first possible token start, the rest
held. internal/claudeauth/setuptoken.go:73-75 says text is held back only from where a token could
start; the code also holds on to a line that begins like a token but can no longer become one, until
its newline (`HeldInVain`). Holding back is needed exactly while none of the first 33 characters
held rules a token out (`HoldingBackIsNeededIff`).

**Output stream.** The server sends a command's output in pieces of any size, under cursors that are
byte offsets, repeated by the frames that carry no output. The cursor makes drops invisible:
whatever the network does, what has been delivered of each stream is one stretch of it with no byte
missing and none twice, and success means all of it, and the command's own exit. What ends the
reading at a connection is spelled out in `EndingIs`. Reading succeeds
with a connection exactly when it is among the first 2000 and brings the exit, and before it nothing
final happened and no six failures followed one another without a frame (`CompletesIff`). `stalls`
is the number of frameless failures since the last frame, not of consecutive ones: a clean empty
connection neither raises nor resets it. internal/circleci/client.go:454-455 ignores event types it
does not know; they are harmless exactly when a known frame comes with them
(`UnknownIsHarmlessIff`). At the level of bytes, a connection cut after any byte still delivers
whole frames only and the last cursor among them.

**Config reducer.** The walk's counters and candidates are functions of a pure expansion; scoping
is lexical; the depth bound reports exactly the step lists that start a chain of calls longer than
it, and when it reports nothing a deeper walk gives the same. The dedup key joins directory and
command with a NUL, so two candidates can share a key without sharing both (`KeyCollision`), exactly
when one directory is another, a NUL, and text that a trimmed and resolved command can begin with
(`KeysSeparateIff`); otherwise the candidates are the first 200 distinct pairs (`CandidatesByPair`).
The gates themselves are deduplicated by name and printed parameters. internal/ciconfig/ciconfig.go:248-249
says different values make different keys; printing keeps values apart exactly when parameter names
hold no ':' and values no ' ', or the other way round (`KeysTellIff`), and `GateCollision` is a pair
of entries that it does not. The key does not look at the pre- and post-steps a workflow adds, so a
second entry that differs only there is dropped with them (`AddedStepsAreDropped`).

**Tree state.** internal/filestate/filestate.go:132-138 says a modified file counts the most it
could have, and internal/changeset/changeset.go:34 calls Lines insertions plus deletions. The code
adds the larger of the two line counts, so this holds exactly when the two versions share, in order,
at least half of the shorter one's lines (`CountsTheMostIff`), and by line counts alone only when one
version has none (`CountsTheMostForAllIff`); twice the size covers any line diff. The size is a
pseudometric as long as equal hashes mean equal line counts (`BuiltAgree`). The binary test looks at the first read
only, and a read brings at most 64 KiB, so this is itself guaranteed exactly for files with no NUL
byte in their first 64 KiB, or with one at the very start (`CountIgnoresReadsIff`).

**File cache.** In every interleaving a hit is a value some Put completely wrote for that entry, as
long as the operating system never hands out a staged name that an unfinished Put still holds. A Put
slower than the grace period loses its staged file to another Put's sweep, so its name can be
created again, and its rename then publishes someone else's file. That ends in a wrong answer
exactly when some beginning of what is written there decodes to a value no Put was asked to store
for the entry (`ReuseIsFatalIff`); for values that decode only whole, such as JSON objects, a Put of
the same key is harmless (`WholeValuesOnly`). `ReusedNameAnswersWrongly` is such a run.
internal/filecache/filecache.go:103-105 says the entry just written always survives. Alone it does
so exactly when the sweep comes within the age limit (`PutThenGet`). Among several processes it
survives every run within its age limit exactly when no sweep that saw the old file under that name
is about to remove it (`SurvivesIff`); `FreshEntryIsLost` is a run in which one is. The loss is a
miss.

**Retry.** internal/buildprompt/orchestrator.go:27 speaks of a binary search; the limit only ever
halves. When viability is monotone, the limit that succeeds is more than half of the best one, and
giving up means that none fits; a limit that fits and is skipped exists (`TheFactorIsReached`).

## Assumptions

- One `char` is one byte in `Redactor`, `LineParser`, `Sse`, `Framing`, `FileState` and `FactoryLoop`, and one code
  point in the `Ci` files.
- The server is the one internal/testing/fakes/circleci.go:482-546 mirrors: it resumes at the
  cursor's offsets, clamped to what there is, sends the exit only after all output, and repeats the
  current cursor on frames without output. A cursor it cannot read resumes at the beginning. The
  output stands for all a command will ever write, and is retained; how much of it exists by the time
  of a connection is part of what the server may then send. Payloads decode.
- The server writes a frame as its event line, its id line unless the id is empty, and one data line
  per line of payload, followed by an empty line, and a heartbeat as one comment line; the reader
  itself accepts fields in any order. No line sent ends in a carriage return of its own.
- Oracles stand for everything outside: the network (`World.net`), the operations of a round
  (`Steps`), JSON coding (`Codec`, `FileCache.Env`), the hash functions, the analysis (`ask`), and the
  clock readings of the cache.

## Model

| member | source | states |
|---|---|---|
| Redactor.TokenIs | internal/claudeauth/setuptoken.go:27-28 | the language of `tokenRe`: the prefix, two digits, a '-', and twenty or more letters, digits, '_' or '-' |
| Redactor.LongestMatch | internal/claudeauth/setuptoken.go:27-28 | the greedy match is the longest prefix in the language of `tokenRe`, or there is none |
| Redactor.LeftmostLongest | internal/claudeauth/setuptoken.go:138-142 | replacement leaves everything before the leftmost match unchanged |
| Redactor.RedactionIsTokenFree | internal/claudeauth/setuptoken.go:138-142 | redacted text holds no substring matching `tokenRe`, across seams and around markers |
| Redactor.TokenFreeUnchanged | internal/claudeauth/setuptoken.go:138-142 | a text without tokens is shown as it is |
| Redactor.SecretIndependent | internal/claudeauth/setuptoken.go:36-39 | exchanging one token for another changes nothing that is shown, whatever stands around it |
| Redactor.TokenAlone | internal/claudeauth/setuptoken.go:138-142 | a token that touches no other token character is shown as exactly "[token redacted]" |
| Redactor.SplitAfter | internal/claudeauth/setuptoken.go:84-99 | redacting line by line equals redacting the whole: redaction splits after any character outside the token alphabet |
| Redactor.CouldStartMeans | internal/claudeauth/setuptoken.go:124-128 | the two-way prefix test is exactly "some continuation begins with the token prefix" |
| Redactor.NotAStartStays | internal/claudeauth/setuptoken.go:126-130 | a position judged not a start stays so when text is appended, and nothing matches there |
| Redactor.TokenStart | internal/claudeauth/setuptoken.go:124-135 | the first position where a token starts or could start |
| Redactor.TokenStartAppend | internal/claudeauth/setuptoken.go:111-122 | rescanning only the held text finds the same start as rescanning the whole line |
| Redactor.Settled | internal/claudeauth/setuptoken.go:82-122 | whatever text follows, the whole-text redaction is the text forwarded, then the redaction of the text held and the new text |
| Redactor.PartialReleases | internal/claudeauth/setuptoken.go:84-92 | text without a newline is released up to the first possible start of the pending line |
| Redactor.NewlineReleases | internal/claudeauth/setuptoken.go:93-98 | a newline releases everything, redacted |
| Redactor.ForwardedIsTokenFree | internal/claudeauth/setuptoken.go:73-76 | what has been forwarded at any moment holds no token |
| Redactor.CanBecomeMeans | internal/claudeauth/setuptoken.go:27-28 | held text can become a token, character by character, iff some continuation of it begins with one |
| Redactor.HoldingBackIsNeededIff | internal/claudeauth/setuptoken.go:73-76 | some continuation makes one more forwarded character wrong iff the held text can still become a token |
| Redactor.HeldInVain | internal/claudeauth/setuptoken.go:124-135 | a held text for which forwarding one more character is right whatever follows |
| Redactor.RedactWriter.Write | internal/claudeauth/setuptoken.go:82-100 | the state after a write depends only on the text received, output only grows, and holds no token |
| Redactor.RedactWriter.EmitSafe | internal/claudeauth/setuptoken.go:111-122 | forwards the pending text up to the first possible start and keeps the rest |
| Redactor.RedactWriter.Flush | internal/claudeauth/setuptoken.go:102-109 | after the final flush everything received has been shown, redacted |
| Redactor.ScanTokenStart | internal/claudeauth/setuptoken.go:126-135 | the scanning loop finds `TokenStart` |
| Redactor.Echo | internal/claudeauth/setuptoken.go:60-66 | for every sequence of writes and the flush, the text shown is the redaction of the concatenation |
| Cursor.CursorRoundTrip | internal/sse/sse.go:163-183 | a cursor a server wrote parses back to the offsets it was written at |
| Cursor.CursorIs | internal/sse/sse.go:163-183 | which cursors can be read, and as what: two offsets with optional signs around the first ',', or nothing for the beginning |
| OutputStream.ConnectionBrings | internal/circleci/client.go:408-466 | a connection brings of each stream exactly the bytes between where it started and got to, the cursor of that place, and the exit only when nothing is left |
| OutputStream.CursorFollows | internal/circleci/client.go:337-339 | the cursor kept after a connection makes the server resume where that connection got to |
| OutputStream.ExecResponse.StreamOnce | internal/circleci/client.go:408-466 | the response grows by exactly what the frames of one connection carry, and the outcome is their last id, exit, error and counts |
| OutputStream.StreamCommandOutput | internal/circleci/client.go:316-389 | for every network: stops at the first connection that ends the reading, within 2000, with exactly the frames up to there and the waits the stall count says; succeeds iff one was an exit, and then holds all output past the starting cursor and the command's own exit |
| OutputStream.OutputIsAPrefix | internal/circleci/client.go:309-315 | after any number of connections what was delivered of each stream is one stretch from the starting cursor, no byte missing and none twice |
| OutputStream.DoneMeansExit | internal/circleci/client.go:341-343 | success iff an exit frame was delivered, and never before the last connection |
| OutputStream.DropsAreInvisible | internal/circleci/client.go:309-315 | success means all of both streams past the starting cursor and the command's own exit, whatever the network did |
| OutputStream.EndingIs | internal/circleci/client.go:328-356 | for each connection: unsupported iff only unknown frames came, cleanly; done iff an exit came; failed remotely iff the last error event is final; rejected iff the failure is a status below 500, or 501 from the API, and nothing else came of it; never for a transport failure |
| OutputStream.FiveFailuresAreHarmless | internal/circleci/client.go:362-388 | up to five frameless 5xx or transport failures before a connection with the exit still end in success |
| OutputStream.SixFailuresEndIt | internal/circleci/client.go:364-369 | six of them end the reading |
| OutputStream.CompletesIff | internal/circleci/client.go:321-389 | reading succeeds with a connection iff it is among the first 2000 and brings the first exit, and before it nothing final happened and no six failures came without a frame in between |
| OutputStream.PatienceSuffices | internal/circleci/client.go:219-231 | up to 1999 clean short streams, silent ones included, never end the reading before the exit |
| OutputStream.UnknownIsHarmlessIff | internal/circleci/client.go:453-456 | frames of unknown types change nothing iff a known frame comes with them, or there are none |
| StallCount.StallStep | internal/circleci/client.go:357-370 | the count of frameless failures since the last frame is reset by a frame, raised by a frameless failure, and left alone by a clean empty connection |
| StallCount.StallsBounded | internal/circleci/client.go:364-369 | while reading goes on the stall count is at most 5 |
| StallCount.NeverSixIff | internal/circleci/client.go:219-224 | the count never runs over iff no stretch of connections without a frame holds six failures |
| OutputStream.GivesUpAtSix | internal/circleci/client.go:364-369 | reading gives up for stalling only at the sixth such failure, and at the sixth it always ends |
| StallCount.BackoffBounded | internal/circleci/client.go:377-388 | the waits since the last frame are 1, 2, ... times the base, at most 15 in all, and never reach the cap |
| OutputStream.WaitsAreShort | internal/circleci/client.go:377-388 | so it is for every run of the client, whatever the network |
| Sse.Scan | internal/sse/sse.go:51-146 | takes exactly the newline-terminated lines that fit, drops the rest, and reports a line that is too long |
| Sse.FieldMeans | internal/sse/sse.go:94-118 | what every field line does: with or without the space, with or without a value; joined data, ids with a NUL, unknown names |
| Sse.BlanksAndComments | internal/sse/sse.go:70-92 | an empty line ends a frame if one was begun, and a comment is a heartbeat only between frames |
| Sse.LineEnds | internal/sse/sse.go:46-50 | a carriage return before the newline is no part of the line |
| Sse.FieldLine | internal/sse/sse.go:151-160 | a line "name: value" takes that field with exactly that value |
| Sse.WholeFrames | internal/sse/sse.go:62-118 | an encoded list of frames is read back exactly, heartbeats and payloads of several lines included |
| Sse.CutRead | internal/sse/sse.go:41-46 | of a stream cut after any byte, the first lines deliver exactly the frames that end within them, and the last id among those |
| Sse.CutStream | internal/sse/sse.go:41-46 | a stream cut after any byte delivers exactly the frames that came through whole, and the last id among them |
| Wire.CutConnection | internal/circleci/client.go:408-477 | a connection's bytes cut anywhere, read up to any line, give what some shorter connection of the client model delivers, with the same cursor |
| Wire.Receive | internal/sse/sse.go:41-51 | so does the reader itself on a cut connection, with its limit on lines, and everything when nothing was cut or too long |
| CiText.ReferenceIs | internal/ciconfig/ciconfig.go:499-502 | a text begins with a reference if it is "<<", blanks, the word, a name, blanks and ">>" |
| CiText.ReferenceOnly | internal/ciconfig/ciconfig.go:499-502 | and only then |
| CiText.InterpolationIs | internal/ciconfig/ciconfig.go:504-508 | a text begins with an interpolation if it is "<<", blanks, lower-case letters and a "." |
| CiText.InterpolationOnly | internal/ciconfig/ciconfig.go:504-508 | and only then |
| CiText.TrimIs | internal/ciconfig/ciconfig.go:446 | trimming takes off all white space at both ends and nothing else |
| CiText.BooleansAre | internal/ciconfig/ciconfig.go:360-370 | which texts are booleans, in whatever case and with white space around |
| CiText.ShortCut | internal/ciconfig/ciconfig.go:512-515 | the short cut of `substitute` changes nothing |
| CiText.ReplaceAgrees | internal/ciconfig/ciconfig.go:516-523 | substitution depends only on the arguments a text refers to |
| CiText.Forwarding | internal/ciconfig/ciconfig.go:525-538 | a value that is one whole reference becomes the caller's argument, which is not searched again |
| CiText.OnePass | internal/ciconfig/ciconfig.go:512-523 | the leftmost reference is replaced and reading goes on after it: nothing inserted is searched |
| CiText.RefIsInterpolation | internal/ciconfig/ciconfig.go:499-508 | `unresolvedRef` matches wherever `paramRef` does |
| CiText.UnboundIsUnresolved | internal/ciconfig/ciconfig.go:510-523 | a reference to an unbound name leaves an interpolation in the substituted text |
| CiText.TrimKeepsUnresolved | internal/ciconfig/ciconfig.go:446-453 | trimming never hides an interpolation |
| CiConfig.CallIs | internal/ciconfig/ciconfig.go:397-411 | a call expands to the command's body under the values passed, after the caller's substitution, and otherwise the scalar defaults; then to the steps handed over |
| CiConfig.StepIs | internal/ciconfig/ciconfig.go:387-421 | what every other kind of step expands to |
| CiConfig.StepsInOrder | internal/ciconfig/ciconfig.go:387-388 | steps expand one after the other |
| CiConfig.PassedValueWins | internal/ciconfig/ciconfig.go:566-580 | a called run step that is one whole reference runs the value passed whatever is declared, else the scalar default, else keeps the reference |
| CiConfig.SubstituteAllMeans | internal/ciconfig/ciconfig.go:525-538 | passed values are substituted one by one, short cut or not |
| CiConfig.ScopingIsLexical | internal/ciconfig/ciconfig.go:397-416 | callers whose arguments agree on the free names of a step list get the same expansion, handed-over steps included |
| CiConfig.CallerArgumentsDoNotLeak | internal/ciconfig/ciconfig.go:405-409 | callers that pass a command the same values, forwarded or not, get the same body; only the steps handed over are read under the caller's arguments |
| CiConfig.TooDeepIff | internal/ciconfig/ciconfig.go:397-404 | the bound is reported iff the steps start a chain of calls longer than it |
| CiConfig.DeeperIsSame | internal/ciconfig/ciconfig.go:124-130 | a bound that is never hit gives the same expansion as any larger one |
| CiConfig.RankBoundsChains | internal/ciconfig/ciconfig.go:59-61 | in an acyclic table, ranks bound the chains of calls |
| CiConfig.CyclesAreReported | internal/ciconfig/ciconfig.go:59-61 | a cycle that can be reached is reported at every bound |
| CiExtract.GateIs | internal/ciconfig/ciconfig.go:156-171 | a gate comes to its added steps and its job's steps under the values passed and the scalar defaults |
| CiExtract.GateRunsPassedValue | internal/ciconfig/ciconfig.go:156-171 | so a job's run step that is one whole reference runs the value the workflow passes, else the default |
| CiExtract.PipelineDefaults | internal/ciconfig/ciconfig.go:202-215 | conditions see the scalar pipeline defaults; without workflows only the job named build is a gate |
| CiExtract.JudgeIs | internal/ciconfig/ciconfig.go:426-453 | when a run step is ignored, unresolvable or eligible, by its condition, its background flag and its command |
| CiExtract.FateIs | internal/ciconfig/ciconfig.go:454-470 | and when an eligible one is a duplicate, cut off at 200, or a candidate |
| CiExtract.FirstTwoHundred | internal/ciconfig/ciconfig.go:459-462 | at most 200 candidates, the first ones |
| CiExtract.OrbsAreNamedOnce | internal/ciconfig/ciconfig.go:488-497 | every orb met is named, once |
| CiExtract.UnboundIsNeverACandidate | internal/ciconfig/ciconfig.go:446-453 | a command with an unbound parameter is never a candidate |
| CiExtract.JudgedIsRunnable | internal/ciconfig/ciconfig.go:446-453 | the commands of candidates are exactly the trimmed, non-empty, fully resolved ones |
| CiExtract.CandidatesAreRunnable | internal/ciconfig/ciconfig.go:446-453 | no candidate is empty or still holds an interpolation |
| CiExtract.DedupIsDistinct | internal/ciconfig/ciconfig.go:454-458 | deduplicated candidates have distinct keys, and every key |
| CiExtract.DedupTakesFirst | internal/ciconfig/ciconfig.go:454-458 | each is the first occurrence of its key |
| CiExtract.EveryRunIsCountedOnce | internal/ciconfig/ciconfig.go:426-470 | every run step visited is exactly one of ignored, unresolved, duplicate, truncated or candidate |
| CiExtract.TruncatedMeansLeftOut | internal/ciconfig/ciconfig.go:459-462 | Truncated counts the eligible steps, repeats included, whose key is in the end not among the candidates |
| CiExtract.Extractor.AddRun | internal/ciconfig/ciconfig.go:426-470 | the accumulated result stays the pure function of the visits, with one more run step |
| CiExtract.Extractor.NoteOrb | internal/ciconfig/ciconfig.go:492-497 | the same, with one more orb name |
| CiExtract.Extractor.Walk | internal/ciconfig/ciconfig.go:387-421 | visits exactly the pure expansion of the steps, in order, for every table |
| CiGates.GateJobs | internal/ciconfig/ciconfig.go:202-258 | the entries that qualify, in config order, each at its first occurrence by key |
| CiGates.EntryIsGate | internal/ciconfig/ciconfig.go:241-247 | an entry is a gate unless it has no name, is an approval, or its branch lists pin it away from working branches |
| CiGates.WorkflowIsKept | internal/ciconfig/ciconfig.go:229-240 | a workflow gates unless it is scheduled or a condition settles against it; an unsettled condition keeps it |
| CiGates.WorkflowsInOrder | internal/ciconfig/ciconfig.go:219-220 | workflows are read in config order |
| CiGates.KeyTells | internal/ciconfig/ciconfig.go:248-250 | entries with one key name one job with the same parameters, when printing keeps parameters apart |
| CiGates.KeysTellIff | internal/ciconfig/ciconfig.go:248-250 | the key stands for (name, parameters) iff parameter names have no ':' and values no ' ', or the other way round, as soon as some character can stand in both |
| CiGates.FirstByKeyIsByJob | internal/ciconfig/ciconfig.go:248-255 | then an entry is dropped exactly when an earlier one names the same job with the same parameters |
| CiGates.GateCollision | internal/ciconfig/ciconfig.go:248-255 | two entries with different parameters and one key, the second of which is dropped |
| CiGates.AddedStepsAreDropped | internal/ciconfig/ciconfig.go:248-255 | of two entries that differ only in the steps they add, the second is dropped |
| CiExtract.Extract | internal/ciconfig/ciconfig.go:147-173 | candidates are the first 200 of the deduplicated eligible steps of the gates in config order, orbs sorted, counters as above |
| CiExtract.NothingTooDeepIsComplete | internal/ciconfig/ciconfig.go:124-130 | when nothing is reported too deep, a deeper walk of the whole config reports the same |
| CiExtract.KeysSeparateIff | internal/ciconfig/ciconfig.go:454-455 | the dedup key stands for (directory, command) iff no directory is another one, a NUL, and text a candidate command can begin with |
| CiExtract.CandidatesByPair | internal/ciconfig/ciconfig.go:453-469 | then the candidates are the first 200 first occurrences by directory and command |
| CiExtract.KeyCollision | internal/ciconfig/ciconfig.go:454-455 | two different steps that share a key, one of which is dropped |
| FactoryLoop.FromReview | internal/factory/check.go:67-86 | errored iff the review did not run, failed iff a finding is worth changing, and a failure has feedback |
| FactoryLoop.PassedMeansClean | internal/factory/check.go:60-135 | a round passes iff every review and command ran clean |
| FactoryLoop.RenderFeedback | internal/factory/check.go:109-123 | builds the feedback, which is empty iff no check failed |
| FactoryLoop.FeedbackIs | internal/factory/check.go:109-123 | the prompt is the opening sentences and, for each failed check in order, its kind, its name and all of its feedback |
| FactoryLoop.ReviewFeedbackIs | internal/factory/check.go:67-86 | a review fails exactly on its high and medium findings, and its feedback is their severity, place and body, in order |
| FactoryLoop.CommandFeedbackIs | internal/factory/check.go:90-103 | a command fails exactly when it ran and exited non-zero, and its feedback holds the exit code and the last 4000 bytes of its output |
| FactoryLoop.FeedbackIsAboutFailures | internal/factory/check.go:105-108 | passed and errored checks leave no trace in the feedback |
| FactoryLoop.RunTurn | internal/factory/loop.go:97-118 | one implementer turn: how it ends the run or the change it gives, and its events |
| FactoryLoop.Run | internal/factory/loop.go:81-140 | for every oracle: the rounds checked are a good history within the attempts, the trace is exactly theirs and the cut-short round's, and the outcome and error are those of the ending |
| FactoryLoop.ResultsAreExact | internal/factory/loop.go:25-38 | what passed, exhausted, stuck and no_change each mean, and that a result is unset iff an error is returned |
| FactoryLoop.EndingIs | internal/factory/loop.go:81-140 | step by step, how a run ends: the result or error, the change it carries, and the events after the checked rounds |
| FactoryLoop.TraceIs | internal/factory/loop.go:94-126 | the events of a checked round: its turn, if it had one, and its check |
| FactoryLoop.FindingReachesImplementer | internal/factory/loop.go:138-139 | every high or medium finding stands in the prompt the implementer is given next |
| FactoryLoop.OutputReachesImplementer | internal/factory/loop.go:138-139 | and so do the exit code and kept output of every command that failed |
| FactoryLoop.TurnsFollowFailures | internal/factory/loop.go:94-118 | a later round has a turn iff the round before had a failed check, prompted by its feedback and giving a new change; otherwise the same change is checked again |
| LineParser.LineDone | internal/factory/implementer.go:184-207 | the end of a line adds its effect iff it fits |
| LineParser.StreamParser.AppendPartial | internal/factory/implementer.go:200-207 | overflow says exactly that the unfinished line is too long, and the buffer never exceeds the cap |
| LineParser.StreamParser.Write | internal/factory/implementer.go:184-198 | the state is a function of the bytes received, however they are split |
| LineParser.StreamParser.Flush | internal/factory/implementer.go:209-214 | a last line without a newline is handled iff it is non-empty and fits |
| LineParser.StreamParser.Line | internal/factory/implementer.go:216-242 | one line's effect on session, result and activity |
| LineParser.SessionIsLast | internal/factory/implementer.go:216-223 | the session is the one the last line that names any names |
| LineParser.ResultIsLast | internal/factory/implementer.go:224-226 | the result is the last result event |
| LineParser.ActivityIs | internal/factory/implementer.go:227-242 | the activity is that of the assistant events in order: texts that are not blank, trimmed, and tools with what they acted on |
| LineParser.FittingIs | internal/factory/implementer.go:200-207 | lines of up to 1048576 bytes count |
| LineParser.ParseAll | internal/factory/implementer.go:88-104 | a whole turn's report depends only on the concatenation of its pieces |
| TextLines.LinesJoin | internal/factory/implementer.go:184-198 | splitting into lines loses nothing and leaves no newline in a line |
| Strings.LeqIs | internal/filestate/filestate.go:181-184 | sorting is by bytes: a beginning first, else the first difference decides |
| Framing.UnframeFrames | internal/hashutil/hashutil.go:12-18 | framing any list of parts can be undone |
| Framing.FramesInjective | internal/hashutil/hashutil.go:12-18 | different lists of parts are never framed alike |
| Framing.FramesAre | internal/hashutil/hashutil.go:15-18 | a part is written as its length in decimal, a ':' and itself |
| Framing.SumParts | internal/hashutil/hashutil.go:20-28 | hashes exactly the framing of the parts |
| FileState.ChangesSince | internal/filestate/filestate.go:139-169 | paths are the sorted, duplicate-free symmetric difference and lines the sum of costs, in whatever order maps are walked |
| FileState.OneChange | internal/filestate/filestate.go:139-168 | a path counts its lines when added or gone, and the larger of its two line counts when modified |
| FileState.ChangesAdd | internal/filestate/filestate.go:139-168 | the size of a change is the sum over any two parts of the tree |
| FileState.DistanceZero | internal/filestate/filestate.go:139-169 | equal trees are at distance 0 |
| FileState.DistanceSymmetric | internal/filestate/filestate.go:139-169 | the size of a change is the same both ways |
| FileState.DistanceTriangle | internal/filestate/filestate.go:139-169 | a detour through a third tree is never shorter, when equal hashes mean equal line counts |
| FileState.TriangleNeedsAgreement | internal/filestate/filestate.go:150-153 | for any content with a NUL inside its first 64 KiB, two ways of reading it and a third tree break the triangle inequality |
| FileState.TwiceCoversAnyDiff | internal/filestate/filestate.go:139-169 | twice the size is at least the insertions plus deletions of any line diff |
| FileState.TwiceCoversFiles | internal/filestate/filestate.go:139-168 | so for text files twice the size computed from the counts the walk makes covers any line diff of their contents |
| FileState.BuiltAgree | internal/filestate/filestate.go:213-248 | trees of files without a NUL inside, hashed and counted by the walk, agree on their hashes, so the size is a distance between them |
| FileState.KeptBounded | internal/filestate/filestate.go:132-138 | a line diff touches all lines but twice those it keeps, and keeps no more than the longest common subsequence |
| FileState.ShortestDiff | internal/filestate/filestate.go:132-138 | some diff keeps that many |
| FileState.CountsTheMostIff | internal/filestate/filestate.go:132-138 | a modified file counts at least what a shortest diff touches iff the versions share half of the shorter one, in order |
| FileState.CountsTheMostForAllIff | internal/filestate/filestate.go:132-138 | for all contents of n and m lines it does iff n or m is 0 |
| FileState.Digest | internal/filestate/filestate.go:177-190 | hashes the framed sorted paths and content hashes |
| FileState.PreimageIs | internal/filestate/filestate.go:177-190 | what is hashed: every path in byte order, each followed by its content hash |
| FileState.PreimageIff | internal/filestate/filestate.go:171-190 | what is hashed is equal iff no path differs |
| FileState.DigestAgreesWithChanges | internal/filestate/filestate.go:171-190 | with an injective hash, digests are equal iff no path differs |
| FileState.DigestClashIsACollision | internal/filestate/filestate.go:171-190 | for any hash, differing trees with one digest give two texts that collide |
| FileState.CountLines | internal/filestate/filestate.go:213-246 | the read loop counts the lines of the content, a last one without a newline included, or none for binary |
| FileState.CountIs | internal/filestate/filestate.go:225-248 | a file whose first read holds no NUL counts its lines, and one more for text after the last newline; any other none |
| FileState.CountIgnoresReadsIff | internal/filestate/filestate.go:213-230 | the count is independent of how the file was read, at most 64 KiB at a time, iff no NUL lies in its first 64 KiB or it begins with one |
| FileCache.Cache.Get | internal/filecache/filecache.go:54-65 | returns the decoded entry of the key, or a miss when there is none or it does not decode |
| FileCache.Cache.Put | internal/filecache/filecache.go:74-98 | whichever step fails, the directory stays as it was; a good Put replaces the entry and sweeps |
| FileCache.Cache.Sweep | internal/filecache/filecache.go:106-136 | removes exactly the staged and entry files past their own age limit |
| FileCache.SweepRemoves | internal/filecache/filecache.go:106-136 | a staged file is removed iff it is an hour old, an entry iff it is as old as the age limit, a week by default; nothing else |
| FileCache.EntriesAreApart | internal/filecache/filecache.go:149-152 | two keys share an entry iff they share a digest |
| FileCache.PutThenGet | internal/filecache/filecache.go:100-105 | a Put alone is visible to the next Get iff its sweep comes within the age limit |
| SharedCache.StepIsSafe | internal/filecache/filecache.go:34-39 | every step of every process keeps the invariant, whatever names are handed out |
| SharedCache.RenameKeepsInv | internal/filecache/filecache.go:92-95 | a rename moves a complete file to its entry, unless the staged name was reused |
| SharedCache.StagedFileIsSafe | internal/filecache/filecache.go:26-30 | in every interleaving, while no sweep starts an hour after its last write, a writer's staged name leads to its own file and its rename publishes all of its data |
| SharedCache.FailedPutLeavesNothing | internal/filecache/filecache.go:88-95 | a Put that fails leaves the directory as it found it |
| SharedCache.EveryHitIsExplained | internal/filecache/filecache.go:34-39 | in every interleaving a hit is a complete value of a Put for the entry, or a beginning of a file created under a name such a Put still held |
| SharedCache.NeverAnswersWrongly | internal/filecache/filecache.go:34-39 | without such a reuse, a hit is always a value some Put completely wrote for that entry |
| SharedCache.ReuseIsFatalIff | internal/filecache/filecache.go:54-95 | creating a staged file can end in a wrong answer iff some beginning of its data decodes to a value no Put was asked to store for an entry whose Put holds the name |
| SharedCache.WholeValuesOnly | internal/filecache/filecache.go:54-95 | when only whole values decode, only the whole value matters, and a reuse by a Put of the same entry is harmless |
| SharedCache.HeldNameComesFree | internal/filecache/filecache.go:115-135 | how a sweep frees the staged name of a slow Put |
| SharedCache.ReusedNameAnswersWrongly | internal/filecache/filecache.go:54-95 | from an empty directory, a run with a reused name after which a Get can answer with another key's value |
| SharedCache.SurvivesIff | internal/filecache/filecache.go:100-136 | a freshly renamed entry survives every run within its age limit iff no process is about to remove a file of that name |
| SharedCache.FreshEntryIsLost | internal/filecache/filecache.go:100-136 | from an empty directory, a run in which a fresh entry is lost to a sweep that saw the old one |
| Retry.LimitKeepsNewest | internal/buildprompt/steps.go:300-324 | a limited group keeps the newest comments and drops none newer than one it keeps; it is its reviewer's and counts what it keeps |
| Retry.LimitCommentsPerReviewer | internal/buildprompt/steps.go:301-324 | every group over the limit is cut, the others are untouched |
| Retry.SentIs | internal/buildprompt/orchestrator.go:38-41 | everything is sent when no reviewer has more than the limit, otherwise every group cut to it |
| Retry.AnalyzeWithRetry | internal/buildprompt/orchestrator.go:29-71 | the limits tried are a halving sequence from the starting limit, all but the last hit the token limit, it gives up on it only at 1 or 0, and under monotone viability it ends nearly best |
| Retry.HalvingDecreases | internal/buildprompt/orchestrator.go:61-66 | limits strictly decrease |
| Retry.HalvingIsShort | internal/buildprompt/orchestrator.go:61-66 | there are at most ceil(log2 n) + 1 limits |
| Retry.AtLeastHalfOfTheBest | internal/buildprompt/orchestrator.go:27-28 | when viability is monotone from limit 1 on, the limit that succeeds is more than half of every one that fits up to the start, and giving up means none fits |
| Retry.BudgetsAreMonotone | internal/buildprompt/orchestrator.go:36-60 | for any comments, a budget on their number makes viability monotone |
| Retry.TheFactorIsReached | internal/buildprompt/orchestrator.go:61-66 | a run that retries, takes 2 and skips 3, which fits |
| EventLog.Recorder.Write | internal/eventlog/eventlog.go:272-291 | a stamped event takes the pending ID and leaves none; another touches no ID |
| EventLog.Recorder.PerCommand | internal/eventlog/eventlog.go:225-241 | a pass or fail closes the run 1/1 or 0/1 and takes the ID; other levels stay open |
| EventLog.Play | internal/eventlog/eventlog.go:205-291 | what any sequence of calls on a recorder and its siblings leaves in the log |
| EventLog.SuppliesOnce | internal/eventlog/eventlog.go:243-245 | an ID lands on at most one event, and an event has at most one source |
| EventLog.LandsIff | internal/eventlog/eventlog.go:243-245 | an ID lands iff a pass or fail event of its recorder comes before another ID is set on it |
| EventLog.EventCarriesItsID | internal/eventlog/eventlog.go:212-213 | in the final log an event has the tally of its call and carries the ID that supplies it and no other; a run-wide Final neither carries nor consumes one |
| EventLog.NextPassOrFailCarriesIt | internal/eventlog/eventlog.go:243-252 | an ID lands on its recorder's next pass or failure, whatever is logged in between, and only there |
| EventLog.OthersCarryNone | internal/eventlog/eventlog.go:264-268 | any other event carries none |

## Left out

- Branch patterns and the two probe branches: whether a pattern admits a working branch is a
  parameter, `admits`.
- YAML decoding of configs, base64 and JSON decoding of payloads, lines and cache entries: decoded
  values or arbitrary coding functions are taken instead.
- A frame whose payload does not decode ends a connection with an error in the code; the stream model
  assumes payloads decode.
- The HTTP client below the stream (its own retries before a response, credential reload): one call
  is one connection.
- A `Flush` of the redactor in mid-stream, and writers that fail: `Flush` comes last and the
  underlying writer appends.
- Wall-clock durations, costs, log formatting and exact error texts; a command's output is taken
  after the white space around it was trimmed, and the sentences that open a feedback prompt are one
  constant.
- `Implementer.Run` and its session flags beside the parser: plumbing around a remote command.
- Retry.LimitCommentsPerReviewer: sorts equally old comments in one fixed order; the code's sort may
  order them otherwise.
- Walk budgets, ignore patterns and unreadable files of `Build`: an index is taken as given.
- Directories and entries that other programs put under the cache are names the sweep leaves alone;
  making the directory can fail and leaves nothing else behind.
- An implementer without an activity callback and a recorder without a log: they report and record
  nothing more.
- Event-log trimming, tailing and failed appends; time stamps.
