/** Command-ID stamping, after internal/eventlog/eventlog.go.

    A recorder and the siblings made from it with `For` share one log. `Logged` is what any
    sequence of calls on them leaves there; `Supplies` says, without any running state, which
    SetCommandID an event gets its ID from. */
module EventLog {

  datatype Level = LevelStep | LevelInfo | LevelWarn | LevelDone | LevelError

  datatype Event = Event(rec: nat, level: Level, final: bool, passed: nat, total: nat, commandID: string)

  class Log {
    var events: seq<Event>

    constructor ()
      ensures events == []
    {
      events := [];
    }

    method Append(e: Event)
      modifies this
      ensures events == old(events) + [e]
    {
      events := events + [e];
    }
  }

  /** `rec` stands for the tag: which recorder wrote an event. */
  class Recorder {
    const log: Log
    const rec: nat
    var pendingCommandID: string

    constructor (log: Log, rec: nat)
      ensures this.log == log && this.rec == rec && pendingCommandID == ""
    {
      this.log, this.rec, pendingCommandID := log, rec, "";
    }

    method SetCommandID(id: string)
      modifies this
      ensures pendingCommandID == id
    {
      pendingCommandID := id;
    }

    /** A stamped event takes the pending ID and leaves none; any other touches no ID. */
    method Write(level: Level, final: bool, passed: nat, total: nat, stampID: bool)
      modifies this, log
      ensures pendingCommandID == if stampID then "" else old(pendingCommandID)
      ensures var id := if stampID then old(pendingCommandID) else "";
              log.events == old(log.events) + [Event(rec, level, final, passed, total, id)]
    {
      var id := "";
      if stampID {
        id := pendingCommandID;
        pendingCommandID := "";
      }
      log.Append(Event(rec, level, final, passed, total, id));
    }

    method Record(level: Level, final: bool, passed: nat, total: nat)
      modifies this, log
      ensures var stamp := !final && (level.LevelDone? || level.LevelError?);
              var id := if stamp then old(pendingCommandID) else "";
              && pendingCommandID == (if stamp then "" else old(pendingCommandID))
              && log.events == old(log.events) + [Event(rec, level, final, passed, total, id)]
    {
      Write(level, final, passed, total, !final && (level.LevelDone? || level.LevelError?));
    }

    method PerCommand(level: Level)
      modifies this, log
      ensures var stamp := level.LevelDone? || level.LevelError?;
              var id := if stamp then old(pendingCommandID) else "";
              && pendingCommandID == (if stamp then "" else old(pendingCommandID))
              && log.events == old(log.events)
                   + [Event(rec, level, stamp, if level.LevelDone? then 1 else 0, if stamp then 1 else 0, id)]
    {
      match level
      case LevelDone => Write(level, true, 1, 1, true);
      case LevelError => Write(level, true, 0, 1, true);
      case _ => Record(level, false, 0, 0);
    }
  }

  // ------------------------------------------------------ sequences of calls

  /** Recorder 0 comes first; the n-th `For` makes recorder n. */
  datatype Call =
    | For(rec: nat)
    | SetCommandID(rec: nat, id: string)
    | Status(rec: nat, level: Level)
    | Final(rec: nat, level: Level, passed: nat, total: nat)
    | PerCommand(rec: nat, level: Level)

  function Recorders(calls: seq<Call>): nat {
    if calls == [] then 1 else Recorders(calls[..|calls| - 1]) + (if calls[|calls| - 1].For? then 1 else 0)
  }

  /** Only recorders that exist are called. */
  ghost predicate Legal(calls: seq<Call>) {
    forall i :: 0 <= i < |calls| ==> calls[i].rec < Recorders(calls[..i])
  }

  /** A pass or fail event of a command, as opposed to a run-wide Final. */
  predicate Stamps(c: Call) { (c.Status? || c.PerCommand?) && (c.level.LevelDone? || c.level.LevelError?) }

  predicate Logs(c: Call) { c.Status? || c.Final? || c.PerCommand? }

  function EventOf(c: Call, id: string): Event
    requires Logs(c)
  {
    match c
    case Status(r, level) => Event(r, level, false, 0, 0, id)
    case Final(r, level, passed, total) => Event(r, level, true, passed, total, id)
    case PerCommand(r, level) =>
      Event(r, level, Stamps(c), if level.LevelDone? then 1 else 0, if Stamps(c) then 1 else 0, id)
  }

  /** The ID waiting on recorder r. */
  function Pending(calls: seq<Call>, r: nat): string {
    if calls == [] then ""
    else
      var c := calls[|calls| - 1];
      if c.rec == r && c.SetCommandID? then c.id
      else if c.rec == r && Stamps(c) then ""
      else Pending(calls[..|calls| - 1], r)
  }

  /** The log the calls leave. */
  function Logged(calls: seq<Call>): seq<Event> {
    if calls == [] then []
    else
      var front, c := calls[..|calls| - 1], calls[|calls| - 1];
      if Logs(c) then Logged(front) + [EventOf(c, if Stamps(c) then Pending(front, c.rec) else "")] else Logged(front)
  }

  lemma NoCalls()
    ensures Recorders([]) == 1 && Logged([]) == [] && forall r :: Pending([], r) == ""
  {
  }

  lemma OneMoreCall(front: seq<Call>, c: Call)
    ensures Recorders(front + [c]) == Recorders(front) + (if c.For? then 1 else 0)
    ensures Logged(front + [c]) == if Logs(c)
              then Logged(front) + [EventOf(c, if Stamps(c) then Pending(front, c.rec) else "")] else Logged(front)
    ensures forall r :: Pending(front + [c], r) ==
              if c.rec == r && c.SetCommandID? then c.id else if c.rec == r && Stamps(c) then "" else Pending(front, r)
  {
    hide EventOf;
    assert (front + [c])[..|front|] == front;
  }

  method Play(calls: seq<Call>) returns (events: seq<Event>)
    requires Legal(calls)
    ensures events == Logged(calls)
  {
    hide Recorders, Logged, Pending;
    NoCalls();
    var log := new Log();
    var first := new Recorder(log, 0);
    var recs := [first];
    for i := 0 to |calls|
      invariant fresh(log) && |recs| == Recorders(calls[..i]) && log.events == Logged(calls[..i])
      invariant forall r :: 0 <= r < |recs| ==> fresh(recs[r]) && recs[r].rec == r && recs[r].log == log
      invariant forall r :: 0 <= r < |recs| ==> recs[r].pendingCommandID == Pending(calls[..i], r)
      invariant forall r :: r >= |recs| ==> Pending(calls[..i], r) == ""
    {
      var c := calls[i];
      assert calls[..i + 1] == calls[..i] + [c];
      OneMoreCall(calls[..i], c);
      var r := recs[c.rec];
      match c {
        case For(_) =>
          var sibling := new Recorder(r.log, |recs|);
          recs := recs + [sibling];
        case SetCommandID(_, id) => r.SetCommandID(id);
        case Status(_, level) => r.Record(level, false, 0, 0);
        case Final(_, level, passed, total) => r.Record(level, true, passed, total);
        case PerCommand(_, level) => r.PerCommand(level);
      }
    }
    assert calls[..|calls|] == calls;
    events := log.events;
  }

  // ----------------------------------------------------- where an ID lands

  /** The ID set by call i is the one event j carries: the same recorder, and neither another ID
      set on it nor another of its pass/fail events in between. */
  ghost predicate Supplies(calls: seq<Call>, i: nat, j: nat)
    requires j < |calls|
  {
    && i < j && calls[i].SetCommandID? && Stamps(calls[j]) && calls[i].rec == calls[j].rec
    && forall k :: i < k < j && calls[k].rec == calls[j].rec ==> !calls[k].SetCommandID? && !Stamps(calls[k])
  }

  /** An ID lands on at most one event, and an event takes its ID from at most one call. */
  lemma SuppliesOnce(calls: seq<Call>, i: nat, j: nat, i2: nat, j2: nat)
    requires j < |calls| && j2 < |calls| && Supplies(calls, i, j) && Supplies(calls, i2, j2)
    ensures i == i2 <==> j == j2
  {
  }

  /** A set ID lands, on its recorder's first later pass/fail event, exactly when such an event
      comes before another ID is set on that recorder. */
  lemma {:induction false} LandsIff(calls: seq<Call>, i: nat)
    requires i < |calls| && calls[i].SetCommandID?
    ensures (exists j :: i < j < |calls| && Supplies(calls, i, j)) <==>
            (exists j :: i < j < |calls| && Stamps(calls[j]) && calls[j].rec == calls[i].rec
                         && NoneSetBetween(calls, i, j))
  {
    forall j | i < j < |calls| && Stamps(calls[j]) && calls[j].rec == calls[i].rec && NoneSetBetween(calls, i, j)
      ensures exists m :: i < m < |calls| && Supplies(calls, i, m)
    {
      FirstStamp(calls, i, j);
    }
    forall j | i < j < |calls| && Supplies(calls, i, j) ensures NoneSetBetween(calls, i, j) {
    }
  }

  ghost predicate NoneSetBetween(calls: seq<Call>, i: nat, j: nat)
    requires i < j < |calls|
  {
    forall k :: i < k < j && calls[k].rec == calls[i].rec ==> !calls[k].SetCommandID?
  }

  lemma {:induction false} FirstStamp(calls: seq<Call>, i: nat, j: nat)
    requires i < j < |calls| && calls[i].SetCommandID? && NoneSetBetween(calls, i, j)
    requires Stamps(calls[j]) && calls[j].rec == calls[i].rec
    ensures exists m :: i < m <= j && Supplies(calls, i, m)
    decreases j
  {
    if k :| i < k < j && calls[k].rec == calls[i].rec && Stamps(calls[k]) {
      FirstStamp(calls, i, k);
    } else {
      assert Supplies(calls, i, j);
    }
  }

  lemma {:induction false} PendingComesFrom(calls: seq<Call>, n: nat, r: nat) returns (i: int)
    requires n <= |calls|
    ensures -1 <= i < n
    ensures i == -1 ==> Pending(calls[..n], r) == ""
    ensures i == -1 ==> forall k :: 0 <= k < n && calls[k].rec == r && calls[k].SetCommandID?
                                    ==> exists m :: k < m < n && calls[m].rec == r && Stamps(calls[m])
    ensures i >= 0 ==> calls[i].SetCommandID? && calls[i].rec == r && calls[i].id == Pending(calls[..n], r)
    ensures i >= 0 ==> forall k :: i < k < n && calls[k].rec == r ==> !calls[k].SetCommandID? && !Stamps(calls[k])
  {
    if n == 0 {
      return -1;
    }
    var c := calls[n - 1];
    assert calls[..n][..n - 1] == calls[..n - 1];
    if c.rec == r && c.SetCommandID? {
      return n - 1;
    }
    if c.rec == r && Stamps(c) {
      return -1;
    }
    i := PendingComesFrom(calls, n - 1, r);
  }

  /** Earlier events are never rewritten. */
  lemma {:induction false} LogOnlyGrows(calls: seq<Call>, n: nat)
    requires n <= |calls|
    ensures Logged(calls[..n]) <= Logged(calls)
  {
    if n == |calls| {
      assert calls[..n] == calls;
    } else {
      var front := calls[..|calls| - 1];
      LogOnlyGrows(front, n);
      assert front[..n] == calls[..n];
    }
  }

  /** The event a call logs stands in the final log, with its tally, after those of the calls before it, and
      carries the ID of the call that supplies it, or no ID when none does: siblings never
      exchange IDs, and a run-wide Final neither carries nor consumes one. */
  lemma EventCarriesItsID(calls: seq<Call>, j: nat)
    requires j < |calls| && Logs(calls[j])
    ensures |Logged(calls[..j])| < |Logged(calls)|
    ensures var e := Logged(calls)[|Logged(calls[..j])|];
            && e.rec == calls[j].rec && e.level == calls[j].level
            && (e.final, e.passed, e.total) ==
                 (match calls[j]
                  case Status(_, _) => (false, 0, 0)
                  case Final(_, _, passed, total) => (true, passed, total)
                  case PerCommand(_, LevelDone) => (true, 1, 1)
                  case PerCommand(_, LevelError) => (true, 0, 1)
                  case _ => (false, 0, 0))
            && (forall i :: 0 <= i < j && Supplies(calls, i, j) ==> e.commandID == calls[i].id)
            && ((forall i :: 0 <= i < j ==> !Supplies(calls, i, j)) ==> e.commandID == "")
            && (calls[j].Final? ==> e.commandID == "" && forall i :: 0 <= i < j ==> !Supplies(calls, i, j))
  {
    assert calls[..j + 1][..j] == calls[..j];
    LogOnlyGrows(calls, j + 1);
    var r := calls[j].rec;
    if Stamps(calls[j]) {
      var i := PendingComesFrom(calls, j, r);
      if i >= 0 {
        assert Supplies(calls, i, j);
        forall i2 | 0 <= i2 < j && Supplies(calls, i2, j) ensures i2 == i {
          SuppliesOnce(calls, i, j, i2, j);
        }
      } else {
        forall i2 | 0 <= i2 < j ensures !Supplies(calls, i2, j) {
        }
      }
    }
  }

  /** A command's pass or failure, on recorder r. */
  ghost predicate PassOrFail(c: Call, r: nat) {
    c.rec == r && (c.Status? || c.PerCommand?) && (c.level == LevelDone || c.level == LevelError)
  }

  /** An ID that is set lands on the recorder's next pass or failure, whatever else is logged in
      between, on this recorder or its siblings; and only there. */
  lemma NextPassOrFailCarriesIt(calls: seq<Call>, r: nat, id: string, others: seq<Call>, c: Call, more: seq<Call>)
    requires PassOrFail(c, r)
    requires forall i :: 0 <= i < |others| ==>
      !PassOrFail(others[i], r) && !(others[i].SetCommandID? && others[i].rec == r)
    ensures var all := calls + [SetCommandID(r, id)] + others + [c] + more;
            var at := Logged(calls + [SetCommandID(r, id)] + others);
            && |at| < |Logged(all)| && Logged(all)[|at|].commandID == id && Logged(all)[|at|].rec == r
            && forall j :: 0 <= j < |all| && j != |calls| + 1 + |others| ==> !Supplies(all, |calls|, j)
  {
    var before := calls + [SetCommandID(r, id)] + others;
    var all := before + [c] + more;
    var i, j := |calls|, |before|;
    assert all[..j] == before && all[j] == c && all[i] == SetCommandID(r, id);
    forall k | i < k < j ensures !(all[k].rec == r && (all[k].SetCommandID? || Stamps(all[k]))) {
      assert all[k] == others[k - i - 1];
    }
    assert Supplies(all, i, j);
    hide Logged;
    EventCarriesItsID(all, j);
    forall j2 | 0 <= j2 < |all| && j2 != j ensures !Supplies(all, i, j2) {
      if Supplies(all, i, j2) { SuppliesOnce(all, i, j, i, j2); }
    }
  }

  /** A call that is no pass or failure logs no ID, and a run-wide Final is none. */
  lemma OthersCarryNone(calls: seq<Call>, c: Call)
    requires !PassOrFail(c, c.rec) && (c.Status? || c.Final? || c.PerCommand?)
    ensures |Logged(calls + [c])| == |Logged(calls)| + 1 && Logged(calls + [c])[|Logged(calls)|].commandID == ""
  {
    assert (calls + [c])[..|calls|] == calls;
  }
}
