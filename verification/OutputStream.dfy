/** The resumable output stream of internal/circleci/client.go.

    A command has written its output and exited. The server sends it in pieces of any size, each
    frame carrying the cursor after it; the network is any function from connection number to
    what comes through that connection before it drops, cleanly or with an error. */
module OutputStream {
  import opened Cursor
  import opened Numbers
  import opened Options
  import opened StallCount
  import opened TextLines

  const MAX_STREAM_ATTEMPTS: nat := 2000

  // ------------------------------------------------------ server and network

  datatype ErrorEvent = ErrorEvent(message: string, retryable: bool)

  datatype Event =
    | Stdout(data: string)
    | Stderr(data: string)
    | Start
    | Exit(code: int, pid: int, signal: string)
    | Error(error: ErrorEvent)
    | Unrecognised

  datatype Frame = Frame(id: string, event: Event)

  /** All a command wrote, and the event it exited with. */
  datatype Command = Command(stdout: string, stderr: string, exit: Event) {

    ghost predicate Valid() { exit.Exit? && |stdout| <= MAX_INT64 && |stderr| <= MAX_INT64 }

    function End(): Offsets { Offsets(|stdout|, |stderr|) }

    predicate Within(at: Offsets) { at.out <= |stdout| && at.err <= |stderr| }
  }

  /** Where the server resumes: at the cursor, but not past the end; from the beginning when it
      cannot read the cursor. */
  function ResumeAt(c: Command, cursor: string): (at: Offsets)
    ensures c.Within(at)
  {
    match ParseCursor(cursor)
    case None => Offsets(0, 0)
    case Some(o) => Offsets(Min(o.out, |c.stdout|), Min(o.err, |c.stderr|))
  }

  datatype CallError = StatusError(code: int) | HttpError(code: int) | TransportError

  /** What the server does next: a heartbeat comment, a `start` frame, up to n bytes of a stream,
      the exit (only once everything has been sent), an error of its own, or a frame of a type
      not known yet, with or without a cursor. */
  datatype Tick =
    | Ping
    | SendStart
    | SendOut(n: nat)
    | SendErr(n: nat)
    | SendExit
    | SendError(error: ErrorEvent)
    | SendUnknown(named: bool)

  datatype Conn = Conn(script: seq<Tick>, error: Option<CallError>, cancelled: bool, cancelledInBackoff: bool)

  datatype Item = Comment | Whole(frame: Frame)

  /** How far a tick moves the server on. */
  function Moves(c: Command, at: Offsets, tick: Tick): (next: Offsets)
    requires c.Within(at)
    ensures c.Within(next)
  {
    match tick
    case SendOut(n) => at.(out := at.out + Min(n, |c.stdout| - at.out))
    case SendErr(n) => at.(err := at.err + Min(n, |c.stderr| - at.err))
    case _ => at
  }

  /** What a tick sends: no empty output, and every cursor that of the place reached. */
  function Sends(c: Command, at: Offsets, tick: Tick): seq<Item>
    requires c.Within(at)
  {
    var next := Moves(c, at, tick);
    var id := CursorText(next);
    match tick
    case Ping => [Comment]
    case SendStart => [Whole(Frame(id, Start))]
    case SendOut(_) => if next == at then [] else [Whole(Frame(id, Stdout(c.stdout[at.out..next.out])))]
    case SendErr(_) => if next == at then [] else [Whole(Frame(id, Stderr(c.stderr[at.err..next.err])))]
    case SendExit => if at == c.End() then [Whole(Frame(id, c.exit))] else []
    case SendError(e) => [Whole(Frame(id, Error(e)))]
    case SendUnknown(named) => [Whole(Frame(if named then id else "", Unrecognised))]
  }

  /** Where a connection opened at `at` gets to. */
  function Reach(c: Command, at: Offsets, script: seq<Tick>): (to: Offsets)
    requires c.Within(at)
    ensures c.Within(to)
  {
    if script == [] then at else Moves(c, Reach(c, at, script[..|script| - 1]), script[|script| - 1])
  }

  /** What comes through a connection opened at `at`. */
  function Deliver(c: Command, at: Offsets, script: seq<Tick>): seq<Item>
    requires c.Within(at)
  {
    if script == [] then []
    else
      var front := script[..|script| - 1];
      Deliver(c, at, front) + Sends(c, Reach(c, at, front), script[|script| - 1])
  }

  function Frames(items: seq<Item>): seq<Frame> {
    if items == [] then []
    else Frames(items[..|items| - 1]) + (if items[|items| - 1].Whole? then [items[|items| - 1].frame] else [])
  }

  // ------------------------------------------------ what frames carry

  function Outputs(fs: seq<Frame>): seq<Event> {
    if fs == [] then []
    else
      var e := fs[|fs| - 1].event;
      Outputs(fs[..|fs| - 1]) + (if e.Stdout? || e.Stderr? then [e] else [])
  }

  /** What an event adds to one stream. */
  function Piece(e: Event, stderr: bool): string {
    if e.Stdout? && !stderr then e.data else if e.Stderr? && stderr then e.data else ""
  }

  function Text(outputs: seq<Event>, stderr: bool): string {
    if outputs == [] then "" else Text(outputs[..|outputs| - 1], stderr) + Piece(outputs[|outputs| - 1], stderr)
  }

  function LastExit(fs: seq<Frame>): Option<Event> {
    if fs == [] then None
    else if fs[|fs| - 1].event.Exit? then Some(fs[|fs| - 1].event)
    else LastExit(fs[..|fs| - 1])
  }

  function LastError(fs: seq<Frame>): Option<ErrorEvent> {
    if fs == [] then None
    else if fs[|fs| - 1].event.Error? then Some(fs[|fs| - 1].event.error)
    else LastError(fs[..|fs| - 1])
  }

  function KnownCount(fs: seq<Frame>): nat {
    if fs == [] then 0
    else KnownCount(fs[..|fs| - 1]) + (if fs[|fs| - 1].event.Unrecognised? then 0 else 1)
  }

  lemma {:induction false} OutputsAppend(a: seq<Frame>, b: seq<Frame>)
    ensures Outputs(a + b) == Outputs(a) + Outputs(b)
  {
    if b == [] {
      assert a + b == a;
    } else {
      OutputsAppend(a, b[..|b| - 1]);
      assert (a + b)[..|a + b| - 1] == a + b[..|b| - 1];
    }
  }

  lemma {:induction false} LastExitAppend(a: seq<Frame>, b: seq<Frame>)
    ensures LastExit(a + b) == if LastExit(b).Some? then LastExit(b) else LastExit(a)
  {
    if b == [] {
      assert a + b == a;
    } else if !b[|b| - 1].event.Exit? {
      LastExitAppend(a, b[..|b| - 1]);
      assert (a + b)[..|a + b| - 1] == a + b[..|b| - 1];
    }
  }

  lemma TextStep(outputs: seq<Event>, e: Event, stderr: bool)
    ensures Text(outputs + [e], stderr) == Text(outputs, stderr) + Piece(e, stderr)
  {
    assert (outputs + [e])[..|outputs|] == outputs;
  }

  lemma {:induction false} TextAppend(a: seq<Event>, b: seq<Event>, stderr: bool)
    ensures Text(a + b, stderr) == Text(a, stderr) + Text(b, stderr)
  {
    if b == [] {
      assert a + b == a && Text(b, stderr) == "";
    } else {
      hide Text, Piece;
      var front, e := b[..|b| - 1], b[|b| - 1];
      TextAppend(a, front, stderr);
      assert a + b == (a + front) + [e] && b == front + [e];
      TextStep(a + front, e, stderr);
      TextStep(front, e, stderr);
      Regroup(Text(a, stderr), Text(front, stderr), Piece(e, stderr));
    }
  }

  /** The id the reader reports: the last one that is not empty. */
  function LastFrameID(fs: seq<Frame>): string {
    if fs == [] then ""
    else if fs[|fs| - 1].id != "" then fs[|fs| - 1].id
    else LastFrameID(fs[..|fs| - 1])
  }

  /** What frames show of one stream. */
  function Shown(fs: seq<Frame>, stderr: bool): string { Text(Outputs(fs), stderr) }

  lemma ShownAppend(a: seq<Frame>, b: seq<Frame>, stderr: bool)
    ensures Shown(a + b, stderr) == Shown(a, stderr) + Shown(b, stderr)
  {
    OutputsAppend(a, b);
    TextAppend(Outputs(a), Outputs(b), stderr);
  }

  lemma {:induction false} LastExitMeans(fs: seq<Frame>)
    ensures LastExit(fs).Some? <==> exists i :: 0 <= i < |fs| && fs[i].event.Exit?
  {
    if fs != [] && !fs[|fs| - 1].event.Exit? {
      var front := fs[..|fs| - 1];
      LastExitMeans(front);
      assert forall i :: 0 <= i < |front| ==> front[i] == fs[i];
      if LastExit(fs).Some? {
        var i :| 0 <= i < |front| && front[i].event.Exit?;
        assert fs[i].event.Exit?;
      }
    }
  }

  lemma {:induction false} KnownMeans(fs: seq<Frame>)
    ensures KnownCount(fs) == 0 <==> forall i :: 0 <= i < |fs| ==> fs[i].event.Unrecognised?
  {
    if fs != [] {
      var front := fs[..|fs| - 1];
      KnownMeans(front);
      assert forall i :: 0 <= i < |front| ==> front[i] == fs[i];
      if forall i :: 0 <= i < |front| ==> front[i].event.Unrecognised? {
        assert forall i :: 0 <= i < |fs| - 1 ==> fs[i] == front[i];
      }
    }
  }

  lemma FrameStart()
    ensures LastExit([]).None? && LastError([]).None? && KnownCount([]) == 0 && LastFrameID([]) == ""
    ensures Outputs([]) == [] && Shown([], false) == "" && Shown([], true) == ""
  {
  }

  lemma FrameStep(fs: seq<Frame>, f: Frame)
    ensures var e := f.event;
            && Outputs(fs + [f]) == (if e.Stdout? || e.Stderr? then Outputs(fs) + [e] else Outputs(fs))
            && LastExit(fs + [f]) == (if e.Exit? then Some(e) else LastExit(fs))
            && LastError(fs + [f]) == (if e.Error? then Some(e.error) else LastError(fs))
            && KnownCount(fs + [f]) == KnownCount(fs) + (if e.Unrecognised? then 0 else 1)
            && LastFrameID(fs + [f]) == (if f.id != "" then f.id else LastFrameID(fs))
  {
    assert (fs + [f])[..|fs|] == fs;
  }

  /** What one connection brings: of each stream, exactly the bytes between where it started and
      where it got to; the cursor of the place it got to; and the exit only when nothing is left
      to send. */
  ghost predicate BringsExactly(c: Command, at: Offsets, to: Offsets, fs: seq<Frame>) {
    && at.out <= to.out <= |c.stdout| && at.err <= to.err <= |c.stderr|
    && Shown(fs, false) == c.stdout[at.out..to.out]
    && Shown(fs, true) == c.stderr[at.err..to.err]
    && (if LastFrameID(fs) == "" then to == at else LastFrameID(fs) == CursorText(to))
    && (LastExit(fs).Some? ==> to == c.End() && LastExit(fs) == Some(c.exit))
  }

  lemma {:induction false} ConnectionBrings(c: Command, at: Offsets, script: seq<Tick>)
    requires c.Valid() && c.Within(at)
    ensures BringsExactly(c, at, Reach(c, at, script), Frames(Deliver(c, at, script)))
  {
    hide BringsExactly;
    if script == [] {
      NothingBrought(c, at);
    } else {
      var front := script[..|script| - 1];
      ConnectionBrings(c, at, front);
      var items, more := Deliver(c, at, front), Sends(c, Reach(c, at, front), script[|script| - 1]);
      FramesMore(items, more);
      TickBrings(c, at, Reach(c, at, front), Frames(items), script[|script| - 1]);
    }
  }

  lemma FramesMore(items: seq<Item>, more: seq<Item>)
    requires |more| <= 1
    ensures Frames(items + more) ==
      Frames(items) + (if more == [] || more[0].Comment? then [] else [more[0].frame])
  {
    if more == [] {
      assert items + more == items;
    } else {
      assert (items + more)[..|items|] == items;
    }
  }

  lemma NothingBrought(c: Command, at: Offsets)
    requires c.Within(at)
    ensures BringsExactly(c, at, at, [])
  {
    FrameStart();
  }

  lemma TickBrings(c: Command, at: Offsets, here: Offsets, fs: seq<Frame>, tick: Tick)
    requires c.Valid() && c.Within(at) && c.Within(here) && BringsExactly(c, at, here, fs)
    ensures var more := Sends(c, here, tick);
            |more| <= 1 && BringsExactly(c, at, Moves(c, here, tick),
                             fs + (if more == [] || more[0].Comment? then [] else [more[0].frame]))
  {
    var more, next := Sends(c, here, tick), Moves(c, here, tick);
    assert fs + [] == fs;
    hide CursorText, BringsExactly;
    if more != [] && more[0].Whole? {
      FrameBrings(c, at, here, next, fs, more[0].frame);
    }
  }

  lemma FrameBrings(c: Command, at: Offsets, here: Offsets, next: Offsets, fs: seq<Frame>, f: Frame)
    requires c.Valid() && c.Within(here) && c.Within(next) && BringsExactly(c, at, here, fs)
    requires here.out <= next.out && here.err <= next.err
    requires f.id == CursorText(next) || (f.id == "" && here == next)
    requires match f.event
             case Stdout(data) => here.err == next.err && data == c.stdout[here.out..next.out]
             case Stderr(data) => here.out == next.out && data == c.stderr[here.err..next.err]
             case Exit(_, _, _) => here == next == c.End() && f.event == c.exit
             case _ => here == next
    ensures BringsExactly(c, at, next, fs + [f])
  {
    CursorIsPlain(next);
    FrameStep(fs, f);
    TextStep(Outputs(fs), f.event, false);
    TextStep(Outputs(fs), f.event, true);
    hide CursorText, Outputs, Text, LastExit, LastError, KnownCount, LastFrameID;
  }

  // ------------------------------------------------------------- whole runs

  datatype Stop =
    | Done
    | Unsupported
    | RemoteFailed(message: string)
    | Cancelled
    | Rejected(error: CallError)
    | GaveUpStalled
    | GaveUpReconnecting

  function IsRetryable(e: CallError): bool {
    match e
    case StatusError(code) => code >= 500 && code != 501
    case HttpError(code) => code >= 500
    case TransportError => true
  }

  /** Whether, and why, reading ends with a connection that brought the frames fs: `attempts` and
      `stalls` count it in. */
  function Verdict(c: Conn, fs: seq<Frame>, attempts: nat, stalls: nat): Option<Stop> {
    var stalled := c.error.Some? && fs == [];
    if c.error.None? && fs != [] && KnownCount(fs) == 0 then Some(Unsupported)
    else if LastExit(fs).Some? then Some(Done)
    else if LastError(fs).Some? && !LastError(fs).value.retryable then Some(RemoteFailed(LastError(fs).value.message))
    else if LastError(fs).None? && c.error.Some? && c.cancelled then Some(Cancelled)
    else if LastError(fs).None? && c.error.Some? && !IsRetryable(c.error.value) then Some(Rejected(c.error.value))
    else if stalled && stalls > MAX_STREAM_STALLS then Some(GaveUpStalled)
    else if attempts >= MAX_STREAM_ATTEMPTS then Some(GaveUpReconnecting)
    else if stalled && c.cancelledInBackoff then Some(Cancelled)
    else None
  }

  /** A command, the cursor reading starts at, and everything the network will do. */
  datatype World = World(cmd: Command, start: string, net: nat -> Conn) {

    /** How far the output has been read before connection k. */
    function Pos(k: nat): (p: Offsets)
      ensures cmd.Within(p)
    {
      if k == 0 then ResumeAt(cmd, start) else Reach(cmd, Pos(k - 1), net(k - 1).script)
    }

    /** The frames connection k brings. */
    function Run(k: nat): seq<Frame> { Frames(Deliver(cmd, Pos(k), net(k).script)) }

    /** The frames of the first k connections. */
    function Got(k: nat): seq<Frame> { if k == 0 then [] else Got(k - 1) + Run(k - 1) }

    /** Which connections fail, and which bring a frame. */
    function Links(): Pattern { Pattern((k: nat) => net(k).error.Some?, (k: nat) => Run(k) != []) }

    /** Whether, and why, reading ends with connection k. */
    function StopAt(k: nat): Option<Stop> { Verdict(net(k), Run(k), k + 1, Links().Stalls(k + 1)) }

    /** n connections were made: none before the last one ended the reading. */
    ghost predicate Ends(n: nat, stop: Stop) {
      n > 0 && StopAt(n - 1) == Some(stop) && forall k :: 0 <= k < n - 1 ==> StopAt(k).None?
    }
  }

  /** What the verdict makes of the stall count. */
  lemma StopAtStall(w: World, k: nat)
    ensures w.StopAt(k) == Some(GaveUpStalled) ==> w.Links().TooMany(k)
    ensures w.Links().TooMany(k) ==>
      w.StopAt(k) in {Some(GaveUpStalled), Some(Cancelled), Some(Rejected(w.net(k).error.value))}
  {
    FrameStart();
    hide World.Run, Pattern.Stalls, LastError, LastExit, KnownCount;
  }

  /** Reading goes on only while there are not too many stalls. */
  lemma GoesOn(w: World, n: nat)
    requires forall k :: 0 <= k < n ==> w.StopAt(k).None?
    ensures forall k :: 0 <= k < n ==> !w.Links().TooMany(k)
  {
    hide World.StopAt, Pattern.TooMany;
    forall k | 0 <= k < n ensures !w.Links().TooMany(k) {
      StopAtStall(w, k);
    }
  }

  /** Reading gives up for stalling only at the sixth frameless failure since the last frame,
      and at the sixth it always ends, unless the failure itself is final. */
  lemma GivesUpAtSix(w: World, n: nat, stop: Stop)
    requires w.Ends(n, stop)
    ensures w.Links().Stalls(n) <= 6
    ensures stop.GaveUpStalled? ==> w.Links().Stalls(n) == 6
    ensures w.Links().Stalls(n) == 6 ==> stop.GaveUpStalled? || stop.Cancelled? || stop.Rejected?
  {
    hide World.StopAt, World.Links, Pattern.Stalls;
    StopAtStall(w, n - 1);
    GoesOn(w, n - 1);
    StallsBounded(w.Links(), n - 1);
    StallStep(w.Links(), n - 1);
  }

  /** The waits of a run since the last frame are 1, 2, ... times half a second: at most 7.5 seconds
      in all, and none is ever cut to the cap. */
  lemma WaitsAreShort(w: World, n: nat, stop: Stop)
    requires w.Ends(n, stop)
    ensures var p := w.Links();
            && p.DelayIn(p.SinceFrame(n - 1), n - 1) == 500 * Triangle(p.Stalls(n - 1))
            && p.DelayIn(p.SinceFrame(n - 1), n - 1) <= 7500
            && forall k :: 0 <= k < n - 1 ==> p.Delay(k) <= 2500
  {
    hide World.StopAt, World.Links, Pattern.TooMany, Pattern.DelayIn, Pattern.Delay, Pattern.Stalls, Triangle,
      Pattern.SinceFrame;
    GoesOn(w, n - 1);
    BackoffBounded(w.Links(), n - 1);
  }

  // ---------------------------------------------------- what has been read

  lemma RunBrings(w: World, k: nat)
    requires w.cmd.Valid()
    ensures BringsExactly(w.cmd, w.Pos(k), w.Pos(k + 1), w.Run(k))
  {
    hide BringsExactly, Deliver, Reach, Frames;
    ConnectionBrings(w.cmd, w.Pos(k), w.net(k).script);
  }

  /** What was read from the place `at` up to the place `to`. */
  ghost predicate Stretch(c: Command, at: Offsets, to: Offsets, fs: seq<Frame>) {
    && at.out <= to.out <= |c.stdout| && at.err <= to.err <= |c.stderr|
    && Shown(fs, false) == c.stdout[at.out..to.out] && Shown(fs, true) == c.stderr[at.err..to.err]
  }

  lemma BringsTogether(c: Command, at: Offsets, here: Offsets, next: Offsets, a: seq<Frame>, b: seq<Frame>)
    requires Stretch(c, at, here, a) && BringsExactly(c, here, next, b)
    ensures Stretch(c, at, next, a + b)
  {
    hide Shown, LastExit, LastFrameID, CursorText;
    ShownAppend(a, b, false);
    ShownAppend(a, b, true);
  }

  /** After any number of connections, whatever they did, what has been delivered of each stream
      is one stretch of it: in order, with no byte missing and none twice. */
  lemma {:induction false} OutputIsAPrefix(w: World, k: nat)
    requires w.cmd.Valid()
    ensures Stretch(w.cmd, w.Pos(0), w.Pos(k), w.Got(k))
  {
    hide World.Pos, World.Run, World.Got, BringsExactly, Shown;
    if k == 0 {
      ReadingStarts(w);
      FrameStart();
    } else {
      hide Stretch;
      OutputIsAPrefix(w, k - 1);
      RunBrings(w, k - 1);
      BringsTogether(w.cmd, w.Pos(0), w.Pos(k - 1), w.Pos(k), w.Got(k - 1), w.Run(k - 1));
      OneMoreRun(w, k - 1);
    }
  }

  /** The cursor after a connection is where the server got to with it. */
  lemma CursorFollows(w: World, k: nat, cursor: string)
    requires w.cmd.Valid() && ResumeAt(w.cmd, cursor) == w.Pos(k)
    ensures var last := LastFrameID(w.Run(k));
            ResumeAt(w.cmd, if last != "" then last else cursor) == w.Pos(k + 1)
  {
    RunBrings(w, k);
    hide Shown, World.Pos, World.Run, LastExit, LastFrameID, CursorText, ParseCursor;
    CursorRoundTrip(w.Pos(k + 1));
  }

  // ------------------------------------------------------- what success means

  lemma UnknownIsNoExit(fs: seq<Frame>)
    ensures KnownCount(fs) == 0 ==> LastExit(fs).None?
  {
    KnownMeans(fs);
    LastExitMeans(fs);
  }

  lemma VerdictDone(c: Conn, fs: seq<Frame>, attempts: nat, stalls: nat)
    ensures Verdict(c, fs, attempts, stalls) == Some(Done) <==> LastExit(fs).Some?
    ensures Verdict(c, fs, attempts, stalls).None? ==> LastExit(fs).None?
  {
    UnknownIsNoExit(fs);
    hide LastExit, KnownCount, LastError;
  }

  lemma {:induction false} NoExitBefore(w: World, k: nat)
    requires forall j :: 0 <= j < k ==> w.StopAt(j).None?
    ensures LastExit(w.Got(k)).None?
  {
    hide World.Run, Verdict;
    if k > 0 {
      NoExitBefore(w, k - 1);
      VerdictDone(w.net(k - 1), w.Run(k - 1), k, w.Links().Stalls(k));
      assert w.StopAt(k - 1).None?;
      hide LastExit, World.Links, World.StopAt;
      LastExitAppend(w.Got(k - 1), w.Run(k - 1));
    }
  }

  /** Reading succeeds exactly when an exit frame has arrived, and that is its last connection. */
  lemma DoneMeansExit(w: World, n: nat, stop: Stop)
    requires w.Ends(n, stop)
    ensures stop.Done? <==> LastExit(w.Got(n)).Some?
    ensures LastExit(w.Got(n - 1)).None? && LastExit(w.Got(n)) == LastExit(w.Run(n - 1))
  {
    hide World.Run, Verdict, LastExit, World.Links;
    NoExitBefore(w, n - 1);
    VerdictDone(w.net(n - 1), w.Run(n - 1), n, w.Links().Stalls(n));
    LastExitAppend(w.Got(n - 1), w.Run(n - 1));
  }

  lemma ReadingStarts(w: World)
    ensures w.Pos(0) == ResumeAt(w.cmd, w.start) && w.Got(0) == [] && w.Links().Stalls(0) == 0
  {
  }

  /** Drops are invisible: success means that of both streams exactly what lies past the starting
      cursor was delivered, up to the last byte, and the command's own exit, whatever the network
      did. */
  lemma DropsAreInvisible(w: World, n: nat)
    requires w.cmd.Valid() && w.Ends(n, Done)
    ensures Shown(w.Got(n), false) == w.cmd.stdout[ResumeAt(w.cmd, w.start).out..]
    ensures Shown(w.Got(n), true) == w.cmd.stderr[ResumeAt(w.cmd, w.start).err..]
    ensures LastExit(w.Got(n)) == Some(w.cmd.exit)
  {
    hide World.Run, World.Got, World.Pos, Shown, LastExit, LastFrameID, CursorText, ResumeAt, Verdict;
    DoneMeansExit(w, n, Done);
    OutputIsAPrefix(w, n);
    RunBrings(w, n - 1);
    ReadingStarts(w);
  }

  /** A connection after which going on is pointless or unwanted, whatever the counts. */
  predicate Final(c: Conn, fs: seq<Frame>) {
    || (c.error.None? && fs != [] && KnownCount(fs) == 0)
    || (LastError(fs).Some? && !LastError(fs).value.retryable)
    || (LastError(fs).None? && c.error.Some? && (c.cancelled || !IsRetryable(c.error.value)))
    || (fs == [] && c.error.Some? && c.cancelledInBackoff)
  }

  lemma VerdictNone(c: Conn, fs: seq<Frame>, attempts: nat, stalls: nat)
    ensures Verdict(c, fs, attempts, stalls).None? <==>
      && LastExit(fs).None? && !Final(c, fs) && attempts < MAX_STREAM_ATTEMPTS
      && !(c.error.Some? && fs == [] && stalls > MAX_STREAM_STALLS)
  {
    hide LastExit, LastError, KnownCount;
  }

  /** Nothing before connection n ends the reading. */
  ghost predicate Undisturbed(w: World, n: nat) {
    && n < MAX_STREAM_ATTEMPTS && NeverSix(w.Links(), n)
    && forall k :: 0 <= k < n ==> LastExit(w.Run(k)).None? && !Final(w.net(k), w.Run(k))
  }

  lemma StepUndisturbed(w: World, k: nat)
    ensures w.StopAt(k).None? <==>
      && LastExit(w.Run(k)).None? && !Final(w.net(k), w.Run(k)) && k + 1 < MAX_STREAM_ATTEMPTS
      && !w.Links().TooMany(k)
  {
    hide World.Run, Verdict, Pattern.Stalls, Final, LastExit;
    VerdictNone(w.net(k), w.Run(k), k + 1, w.Links().Stalls(k + 1));
  }

  lemma GoesOnIff(w: World, n: nat)
    requires n < MAX_STREAM_ATTEMPTS
    ensures (forall k :: 0 <= k < n ==> w.StopAt(k).None?) <==> Undisturbed(w, n)
  {
    hide World.StopAt, World.Run, Final, LastExit, NeverSix, World.Links, Pattern.TooMany;
    NeverSixIff(w.Links(), n);
    forall k | 0 <= k < n
      ensures w.StopAt(k).None? <==>
        LastExit(w.Run(k)).None? && !Final(w.net(k), w.Run(k)) && !w.Links().TooMany(k)
    {
      StepUndisturbed(w, k);
    }
  }

  /** Reading succeeds with connection n exactly when that one is among the first 2000 and brings
      the exit, and before it no exit came, nothing final happened, and no six failures followed
      one another without a frame. Drops, clean empty connections and failures are otherwise
      harmless. */
  lemma CompletesIff(w: World, n: nat)
    requires n > 0
    ensures w.Ends(n, Done) <==>
      n <= 2000 && LastExit(w.Run(n - 1)).Some? && Undisturbed(w, n - 1)
  {
    hide Verdict, World.Run, LastExit, World.Links, Undisturbed;
    VerdictDone(w.net(n - 1), w.Run(n - 1), n, w.Links().Stalls(n));
    if n <= MAX_STREAM_ATTEMPTS {
      GoesOnIff(w, n - 1);
    } else {
      StepUndisturbed(w, n - 2);
    }
  }

  lemma {:induction false} NoFailureNoStall(p: Pattern, i: nat, j: nat)
    requires i <= j && forall k :: i <= k < j ==> !p.failed(k)
    ensures p.StalledIn(i, j) == 0
    decreases j
  {
    if i < j { NoFailureNoStall(p, i, j - 1); }
  }

  /** A command served as a series of up to 1999 clean short streams, silent ones among them, is
      read to its end. */
  lemma PatienceSuffices(w: World, n: nat)
    requires 0 < n <= 2000 && LastExit(w.Run(n - 1)).Some?
    requires forall k :: 0 <= k < n - 1 ==>
      && w.net(k).error.None? && LastExit(w.Run(k)).None? && LastError(w.Run(k)).None?
      && (w.Run(k) == [] || KnownCount(w.Run(k)) > 0)
    ensures w.Ends(n, Done)
  {
    hide World.Run, LastExit, LastError, KnownCount, Verdict;
    forall i, j | 0 <= i <= j <= n - 1 ensures w.Links().StalledIn(i, j) <= MAX_STREAM_STALLS {
      NoFailureNoStall(w.Links(), i, j);
    }
    hide World.Links, World.Ends;
    CompletesIff(w, n);
  }

  // ------------------------------------------------ what each ending means

  ghost predicate HasExit(fs: seq<Frame>) { exists i :: 0 <= i < |fs| && fs[i].event.Exit? }

  ghost predicate HasError(fs: seq<Frame>) { exists i :: 0 <= i < |fs| && fs[i].event.Error? }

  /** The last error event among the frames is this one. */
  ghost predicate LastErrorIs(fs: seq<Frame>, e: ErrorEvent) {
    exists i :: 0 <= i < |fs| && fs[i].event == Error(e) && forall j :: i < j < |fs| ==> !fs[j].event.Error?
  }

  lemma {:induction false} LastErrorMeans(fs: seq<Frame>)
    ensures LastError(fs).Some? <==> HasError(fs)
    ensures LastError(fs).Some? ==> LastErrorIs(fs, LastError(fs).value)
  {
    if fs != [] {
      var front, f := fs[..|fs| - 1], fs[|fs| - 1];
      LastErrorMeans(front);
      assert forall i :: 0 <= i < |front| ==> front[i] == fs[i];
      if f.event.Error? {
        assert fs[|fs| - 1].event == Error(f.event.error);
      } else if LastError(front).Some? {
        var e := LastError(front).value;
        var i :| 0 <= i < |front| && front[i].event == Error(e)
                 && forall j :: i < j < |front| ==> !front[j].event.Error?;
        assert fs[i].event == Error(e) && forall j :: i < j < |fs| ==> !fs[j].event.Error?;
      }
    }
  }

  lemma OneLastError(fs: seq<Frame>, d: ErrorEvent, e: ErrorEvent)
    requires LastErrorIs(fs, d) && LastErrorIs(fs, e)
    ensures d == e
  {
  }

  /** A definitive rejection: a status below 500, or 501 from the API itself. */
  predicate Definitive(e: CallError) {
    match e
    case StatusError(code) => code < 500 || code == 501
    case HttpError(code) => code < 500
    case TransportError => false
  }

  /** What a connection's frames and failure must be for each way of ending, apart from the
      limits: a stream of unknown types only, an exit, a final error event, and, with no error event, a
      cancellation or a definitive rejection. */
  lemma EndingIs(w: World, k: nat)
    ensures var c, fs, stop := w.net(k), w.Run(k), w.StopAt(k);
      var refused := c.error.Some? && !HasExit(fs) && !HasError(fs);
      && (stop == Some(Unsupported) <==>
            c.error.None? && fs != [] && forall i :: 0 <= i < |fs| ==> fs[i].event.Unrecognised?)
      && (stop == Some(Done) <==> HasExit(fs))
      && (forall m :: stop == Some(RemoteFailed(m)) <==> !HasExit(fs) && LastErrorIs(fs, ErrorEvent(m, false)))
      && (forall e :: stop == Some(Rejected(e)) <==> refused && !c.cancelled && c.error == Some(e) && Definitive(e))
      && (refused && c.cancelled ==> stop == Some(Cancelled))
  {
    var fs := w.Run(k);
    KnownMeans(fs);
    LastExitMeans(fs);
    LastErrorMeans(fs);
    LastErrorIsKnown(fs);
    hide World.Run, LastExit, LastError, KnownCount, World.Links, Pattern.Stalls;
    forall m | LastErrorIs(fs, ErrorEvent(m, false)) ensures LastError(fs) == Some(ErrorEvent(m, false)) {
      OneLastError(fs, LastError(fs).value, ErrorEvent(m, false));
    }
    hide LastErrorIs;
  }

  lemma LastErrorIsKnown(fs: seq<Frame>)
    ensures HasError(fs) || HasExit(fs) ==> !(forall i :: 0 <= i < |fs| ==> fs[i].event.Unrecognised?)
    ensures forall e :: LastErrorIs(fs, e) ==> HasError(fs)
  {
  }

  /** A failed connection that brought nothing, and that trying again may cure. */
  ghost predicate Hiccup(w: World, k: nat) {
    && w.Run(k) == [] && w.net(k).error.Some? && !w.net(k).cancelled && !w.net(k).cancelledInBackoff
    && match w.net(k).error.value
       case StatusError(code) => code >= 500 && code != 501
       case HttpError(code) => code >= 500
       case TransportError => true
  }

  lemma {:induction false} HiccupsStall(w: World, n: nat)
    requires forall k :: 0 <= k < n ==> Hiccup(w, k)
    ensures w.Links().Stalls(n) == n
  {
    hide World.Run, Pattern.Stalls, World.Links;
    NoStallYet(w.Links());
    if n > 0 {
      HiccupsStall(w, n - 1);
      StallStep(w.Links(), n - 1);
      HiccupLinks(w, n - 1);
    }
  }

  lemma HiccupLinks(w: World, k: nat)
    requires Hiccup(w, k)
    ensures !w.Links().framed(k) && w.Links().Stalled(k)
  {
    hide World.Run;
  }

  lemma HiccupStop(w: World, k: nat)
    requires Hiccup(w, k)
    ensures k < 5 && w.Links().Stalls(k + 1) == k + 1 ==> w.StopAt(k).None?
    ensures w.Links().Stalls(k + 1) == 6 ==> w.StopAt(k) == Some(GaveUpStalled)
  {
    FrameStart();
    hide World.Run, World.Links, Pattern.Stalls, LastExit, LastError, KnownCount;
  }

  /** Up to five failures in a row are got over. */
  lemma FiveFailuresAreHarmless(w: World, n: nat)
    requires n <= 5 && (forall k :: 0 <= k < n ==> Hiccup(w, k)) && HasExit(w.Run(n))
    ensures w.Ends(n + 1, Done)
  {
    hide World.Run, World.Links, Pattern.Stalls, Hiccup, World.StopAt, HasExit;
    EndingIs(w, n);
    forall k | 0 <= k < n ensures w.StopAt(k).None? {
      HiccupsStall(w, k + 1);
      HiccupStop(w, k);
    }
  }

  /** The sixth is the end. */
  lemma SixFailuresEndIt(w: World)
    requires forall k :: 0 <= k < 6 ==> Hiccup(w, k)
    ensures w.Ends(6, GaveUpStalled)
  {
    hide World.Run, World.Links, Pattern.Stalls, Hiccup, World.StopAt;
    forall k | 0 <= k < 5 ensures w.StopAt(k).None? {
      HiccupsStall(w, k + 1);
      HiccupStop(w, k);
    }
    HiccupsStall(w, 6);
    HiccupStop(w, 5);
  }

  // ------------------------------------------------------ unknown event types

  /** The frames of types this client knows. */
  function Known(fs: seq<Frame>): seq<Frame> {
    if fs == [] then []
    else Known(fs[..|fs| - 1]) + (if fs[|fs| - 1].event.Unrecognised? then [] else [fs[|fs| - 1]])
  }

  lemma KnownStep(fs: seq<Frame>, f: Frame)
    ensures Known(fs + [f]) == if f.event.Unrecognised? then Known(fs) else Known(fs) + [f]
  {
    assert (fs + [f])[..|fs|] == fs;
  }

  lemma {:induction false} KnownCarriesAll(fs: seq<Frame>)
    ensures var known := Known(fs);
            && Outputs(known) == Outputs(fs) && LastExit(known) == LastExit(fs) && LastError(known) == LastError(fs)
            && KnownCount(known) == KnownCount(fs) == |known|
  {
    hide Outputs, LastExit, LastError, KnownCount, LastFrameID;
    if fs != [] {
      var front, f := fs[..|fs| - 1], fs[|fs| - 1];
      KnownCarriesAll(front);
      assert front + [f] == fs;
      FrameStep(front, f);
      FrameStep(Known(front), f);
      KnownStep(front, f);
      hide Known;
    } else {
      FrameStart();
      assert Known([]) == [];
    }
  }

  /** The stall count after a connection that brought the frames fs. */
  function NextStalls(c: Conn, fs: seq<Frame>, stalls: nat): nat {
    if fs != [] then 0 else stalls + (if c.error.Some? then 1 else 0)
  }

  /** Frames of unknown types change neither what a connection delivers nor what becomes of the
      reading exactly when a known frame comes with them. */
  lemma UnknownIsHarmlessIff(c: Conn, fs: seq<Frame>, attempts: nat, stalls: nat)
    ensures Outputs(Known(fs)) == Outputs(fs) && LastExit(Known(fs)) == LastExit(fs)
    ensures NextStalls(c, fs, stalls) == NextStalls(c, Known(fs), stalls)
            && Verdict(c, fs, attempts, NextStalls(c, fs, stalls))
               == Verdict(c, Known(fs), attempts, NextStalls(c, Known(fs), stalls))
            <==> fs == [] || Known(fs) != []
  {
    KnownCarriesAll(fs);
    FrameStart();
    hide Outputs, LastExit, LastError, KnownCount, Known;
    assert fs == [] ==> Known(fs) == [];
  }

  // ---------------------------------------------------------- the client

  datatype Outcome = Outcome(cursor: string, exited: bool, failed: Option<ErrorEvent>, frames: nat, known: nat)

  /** The outcome of a connection that brought the frames fs. */
  function OutcomeOf(fs: seq<Frame>): Outcome {
    Outcome(LastFrameID(fs), LastExit(fs).Some?, LastError(fs), |fs|, KnownCount(fs))
  }

  /** `stdout` and `stderr` collect output when there is no callback; `shown` is what a callback
      was called with. */
  class ExecResponse {
    var stdout: string
    var stderr: string
    var exitCode: int
    var pid: int
    var signal: string
    var shown: seq<Event>

    constructor ()
      ensures Holds(true, []) && Holds(false, [])
    {
      stdout, stderr, exitCode, pid, signal, shown := "", "", 0, 0, "", [];
    }

    /** The response holds exactly what the frames fs carry. */
    ghost predicate Holds(callback: bool, fs: seq<Frame>)
      reads this
    {
      && shown == (if callback then Outputs(fs) else [])
      && stdout == (if callback then "" else Text(Outputs(fs), false))
      && stderr == (if callback then "" else Text(Outputs(fs), true))
      && (match LastExit(fs)
          case Some(e) => e.Exit? && exitCode == e.code && pid == e.pid && signal == e.signal
          case None => exitCode == 0 && pid == 0 && signal == "")
    }

    /** The decoder callback's effect on the response for one frame. */
    method Handle(callback: bool, f: Frame, ghost before: seq<Frame>)
      requires Holds(callback, before)
      modifies this
      ensures Holds(callback, before + [f])
    {
      hide Outputs, LastExit, LastError, KnownCount, Text;
      var e := f.event;
      FrameStep(before, f);
      TextStep(Outputs(before), e, false);
      TextStep(Outputs(before), e, true);
      match e
      case Stdout(data) =>
        if callback { shown := shown + [e]; } else { stdout := stdout + data; }
      case Stderr(data) =>
        if callback { shown := shown + [e]; } else { stderr := stderr + data; }
      case Exit(c, p, s) =>
        exitCode, pid, signal := c, p, s;
      case _ =>
    }

    /** One connection: `items` is what comes through it. */
    method StreamOnce(items: seq<Item>, callback: bool, ghost before: seq<Frame>) returns (o: Outcome)
      requires Holds(callback, before)
      modifies this
      ensures Holds(callback, before + Frames(items))
      ensures var fs := Frames(items);
              o == OutcomeOf(fs)
    {
      hide Holds, Outputs, LastExit, LastError, KnownCount, LastFrameID;
      FrameStart();
      o := Outcome("", false, None, 0, 0);
      assert before + Frames(items[..0]) == before;
      for i := 0 to |items|
        invariant Holds(callback, before + Frames(items[..i]))
        invariant var fs := Frames(items[..i]);
                  o == OutcomeOf(fs)
      {
        ghost var fs := Frames(items[..i]);
        assert items[..i + 1][..i] == items[..i];
        match items[i]
        case Comment =>
          assert Frames(items[..i + 1]) == fs;
        case Whole(f) =>
          assert Frames(items[..i + 1]) == fs + [f];
          FrameStep(fs, f);
          assert before + (fs + [f]) == (before + fs) + [f];
          Handle(callback, f, before + fs);
          o := o.(frames := o.frames + 1, cursor := if f.id != "" then f.id else o.cursor);
          match f.event
          case Exit(_, _, _) => o := o.(known := o.known + 1, exited := true);
          case Error(e) => o := o.(known := o.known + 1, failed := Some(e));
          case Unrecognised =>
          case _ => o := o.(known := o.known + 1);
      }
      assert items[..|items|] == items;
    }
  }

  /** Reads a command's output to its end. `made` is the number of connections made and
      `delays` the waits between them, in milliseconds. */
  method StreamCommandOutput(w: World, callback: bool)
      returns (stop: Stop, result: ExecResponse, made: nat, delays: seq<nat>)
    requires w.cmd.Valid()
    ensures w.Ends(made, stop) && made <= 2000
    ensures result.Holds(callback, w.Got(made))
    ensures stop.Done? <==> LastExit(w.Got(made)).Some?
    ensures stop.Done? ==> IsWhole(w, result, callback)
    ensures |delays| == made - 1 && forall k :: 0 <= k < |delays| ==> delays[k] == w.Links().Delay(k)
  {
    hide World.Pos, World.Got, World.Run, Frames, Deliver, LastExit, LastError, KnownCount, LastFrameID, World.Ends,
      ResumeAt, ExecResponse.Holds, Pattern.Stalls;
    result := new ExecResponse();
    var cursor := w.start;
    var stalls := 0;
    made, delays := 0, [];
    ReadingStarts(w);
    while true
      invariant fresh(result) && result.Holds(callback, w.Got(made))
      invariant ResumeAt(w.cmd, cursor) == w.Pos(made)
      invariant stalls == w.Links().Stalls(made) && made < MAX_STREAM_ATTEMPTS
      invariant forall k :: 0 <= k < made ==> w.StopAt(k).None?
      invariant |delays| == made && forall k :: 0 <= k < made ==> delays[k] == w.Links().Delay(k)
      decreases MAX_STREAM_ATTEMPTS - made
    {
      ghost var k := made;
      CursorFollows(w, k, cursor);
      StallStep(w.Links(), k);
      OneMoreRun(w, k);
      var conn := w.net(made);
      var items := Deliver(w.cmd, ResumeAt(w.cmd, cursor), conn.script);
      var o := result.StreamOnce(items, callback, w.Got(k));
      made := made + 1;

      if conn.error.None? && o.frames > 0 && o.known == 0 {
        stop := Unsupported;
        break;
      }
      if o.cursor != "" {
        cursor := o.cursor;
      }
      if o.exited {
        stop := Done;
        break;
      } else if o.failed.Some? {
        if !o.failed.value.retryable {
          stop := RemoteFailed(o.failed.value.message);
          break;
        }
      } else if conn.error.Some? {
        if conn.cancelled {
          stop := Cancelled;
          break;
        }
        if !IsRetryable(conn.error.value) {
          stop := Rejected(conn.error.value);
          break;
        }
      }
      if o.frames > 0 {
        stalls := 0;
      } else if conn.error.Some? {
        stalls := stalls + 1;
        if stalls > MAX_STREAM_STALLS {
          stop := GaveUpStalled;
          break;
        }
      }
      if made >= MAX_STREAM_ATTEMPTS {
        stop := GaveUpReconnecting;
        break;
      }
      if conn.error.None? || stalls == 0 {
        delays := delays + [0];
        continue;
      }
      if conn.cancelledInBackoff {
        stop := Cancelled;
        break;
      }
      delays := delays + [if stalls < 10 then stalls * STREAM_RETRY_BASE else 10 * STREAM_RETRY_BASE];
    }
    EndsHere(w, made, stop);
    DoneMeansExit(w, made, stop);
    if stop.Done? { WholeResponse(w, made, result, callback); }
  }

  /** The response of a command read to its end: how it exited, and all of its output past the
      cursor reading started at, either collected or shown. */
  ghost predicate IsWhole(w: World, result: ExecResponse, callback: bool)
    requires w.cmd.Valid()
    reads result
  {
    var at, e := ResumeAt(w.cmd, w.start), w.cmd.exit;
    && result.exitCode == e.code && result.pid == e.pid && result.signal == e.signal
    && (if callback
        then Text(result.shown, false) == w.cmd.stdout[at.out..] && Text(result.shown, true) == w.cmd.stderr[at.err..]
        else result.stdout == w.cmd.stdout[at.out..] && result.stderr == w.cmd.stderr[at.err..])
  }

  lemma WholeResponse(w: World, n: nat, result: ExecResponse, callback: bool)
    requires w.cmd.Valid() && w.Ends(n, Done) && result.Holds(callback, w.Got(n))
    ensures IsWhole(w, result, callback)
  {
    hide World.Ends, World.Got, ResumeAt, LastExit, Outputs, Text;
    DropsAreInvisible(w, n);
  }

  lemma OneMoreRun(w: World, k: nat)
    ensures w.Got(k + 1) == w.Got(k) + w.Run(k)
    ensures w.Run(k) == Frames(Deliver(w.cmd, w.Pos(k), w.net(k).script))
  {
    hide World.Pos, Frames, Deliver;
  }

  lemma EndsHere(w: World, n: nat, stop: Stop)
    requires n > 0 && w.StopAt(n - 1) == Some(stop) && forall k :: 0 <= k < n - 1 ==> w.StopAt(k).None?
    ensures w.Ends(n, stop)
  {
    hide World.StopAt;
  }
}
