/** The Server-Sent Events reader of internal/sse/sse.go, at the level of bytes.

    A connection can be cut after any byte. The module proves what the output stream relies on:
    a cut stream yields whole frames only, in order, and the id of the last one of them. */
module Sse {
  import opened TextLines

  /** `Comment` is a heartbeat. */
  datatype Frame = Comment | Frame(event: string, id: string, data: string)

  /** The reader between two lines. */
  datatype Reader = Reader(frame: Frame, hasData: bool, pending: bool, lastID: string, frames: seq<Frame>)

  const EMPTY := Frame.Frame("", "", "")

  const START := Reader(EMPTY, false, false, "", [])

  function StripCR(line: string): string {
    if line != "" && line[|line| - 1] == '\r' then line[..|line| - 1] else line
  }

  /** `splitField`: name and value, without the one optional space after the colon. */
  function SplitField(line: string): (string, string) {
    var i := IndexOf(line, ':');
    if i == |line| then (line, "")
    else if i + 1 < |line| && line[i + 1] == ' ' then (line[..i], line[i + 2..])
    else (line[..i], line[i + 1..])
  }

  /** The effect of one field of the frame being read. */
  function TakeField(r: Reader, name: string, value: string): Reader
    requires r.frame.Frame?
  {
    var started := r.(pending := true);
    if name == "event" then started.(frame := r.frame.(event := value))
    else if name == "id" then if '\0' in value then started else started.(frame := r.frame.(id := value))
    else if name == "data" then
      started.(frame := r.frame.(data := if r.hasData then r.frame.data + "\n" + value else value), hasData := true)
    else started
  }

  /** The effect of one line. */
  function TakeLine(r: Reader, raw: string): (t: Reader)
    requires r.frame.Frame?
    ensures t.frame.Frame?
  {
    var line := StripCR(raw);
    if line == "" then
      var done := r.(frame := EMPTY, hasData := false, pending := false);
      if !r.pending then done
      else done.(frames := r.frames + [r.frame], lastID := if r.frame.id != "" then r.frame.id else r.lastID)
    else if line[0] == ':' then if r.pending then r else r.(frames := r.frames + [Comment])
    else TakeField(r, SplitField(line).0, SplitField(line).1)
  }

  function TakeLines(r: Reader, lines: seq<string>): (t: Reader)
    requires r.frame.Frame?
    ensures t.frame.Frame?
  {
    if lines == [] then r else TakeLine(TakeLines(r, lines[..|lines| - 1]), lines[|lines| - 1])
  }

  /** How long a line the reader accepts, its newline included. */
  predicate Fits(line: string, limit: nat) { |line| + 1 <= limit }

  /** `Scan` over everything that arrives before the connection ends. `read` is how many lines
      were taken; the text after the last newline is dropped. */
  method Scan(input: string, limit: nat) returns (r: Reader, tooLarge: bool, read: nat)
    ensures read <= |Lines(input)| && r == TakeLines(START, Lines(input)[..read])
    ensures !tooLarge <==> read == |Lines(input)| && |Rest(input)| <= limit
    ensures forall i :: 0 <= i < read ==> |Lines(input)[i]| + 1 <= limit
    ensures read < |Lines(input)| ==> |Lines(input)[read]| + 1 > limit
  {
    hide Lines, Rest, TakeLine, TakeLines;
    r, tooLarge, read := START, false, 0;
    ghost var seen := "";
    var rest := input;
    StartOfInput();
    while true
      invariant seen + rest == input && Rest(seen) == "" && |Lines(seen)| == read
      invariant r == TakeLines(START, Lines(seen)) && !tooLarge
      invariant forall i :: 0 <= i < read ==> Fits(Lines(seen)[i], limit)
      decreases |rest|
    {
      var i := IndexNewline(rest);
      if i == |rest| {
        assert rest[..i] == rest;
        AppendText(seen, rest);
        assert Lines(input)[..read] == Lines(seen);
        assert Rest(input) == rest;
        tooLarge := |rest| > limit;
        return;
      }
      var line := rest[..i];
      AppendText(seen, line);
      AppendNewline(seen + line);
      assert Rest(seen) + line == line;
      LinesGrow(seen + line + ['\n'], rest[i + 1..]);
      assert input == seen + line + ['\n'] + rest[i + 1..];
      if !Fits(line, limit) {
        assert Lines(input)[..read] == Lines(seen);
        tooLarge := true;
        return;
      }
      TakeOneMore(START, Lines(seen), line);
      r := TakeLine(r, line);
      seen, rest, read := seen + line + ['\n'], rest[i + 1..], read + 1;
    }
  }

  lemma StartOfInput()
    ensures Rest("") == "" && Lines("") == [] && TakeLines(START, []) == START
  {
  }

  lemma TakeOneMore(r: Reader, lines: seq<string>, line: string)
    requires r.frame.Frame?
    ensures TakeLines(r, lines + [line]) == TakeLine(TakeLines(r, lines), line)
  {
    assert (lines + [line])[..|lines|] == lines;
  }

  lemma {:induction false} LinesGrow(s: string, more: string)
    ensures Lines(s) <= Lines(s + more)
  {
    if more == "" {
      assert s + more == s;
    } else {
      LinesGrow(s, more[..|more| - 1]);
      assert (s + more)[..|s + more| - 1] == s + more[..|more| - 1];
    }
  }

  lemma {:induction false} TakeMore(r: Reader, a: seq<string>, b: seq<string>)
    requires r.frame.Frame?
    ensures TakeLines(r, a + b) == TakeLines(TakeLines(r, a), b)
  {
    hide TakeLine;
    if b == [] {
      assert a + b == a;
    } else {
      TakeMore(r, a, b[..|b| - 1]);
      assert (a + b)[..|a + b| - 1] == a + b[..|b| - 1];
    }
  }

  // ------------------------------------------------------- what a line means

  /** A line of the input ends with '\n' or with '\r' and '\n'; the '\r' is no part of it. */
  lemma LineEnds(r: Reader, line: string)
    requires r.frame.Frame? && (line != "" ==> line[|line| - 1] != '\r')
    ensures TakeLine(r, line + ['\r']) == TakeLine(r, line)
  {
    var raw := line + ['\r'];
    assert raw[..|raw| - 1] == line && StripCR(line) == line;
  }

  /** What a field does: the name before the first ':', and after it the value, without one space
      before it; a line without a ':' is a name alone. Data lines are joined with newlines, an id with
      a NUL changes nothing, and unknown fields only make the frame one. */
  ghost predicate Takes(r: Reader, name: string, value: string, t: Reader)
    requires r.frame.Frame?
  {
    var started := r.(pending := true);
    t == if name == "event" then started.(frame := r.frame.(event := value))
         else if name == "id" && '\0' !in value then started.(frame := r.frame.(id := value))
         else if name == "data" && r.hasData then started.(frame := r.frame.(data := r.frame.data + "\n" + value))
         else if name == "data" then started.(hasData := true, frame := r.frame.(data := value))
         else started
  }

  lemma FieldMeans(r: Reader, name: string, value: string)
    requires r.frame.Frame? && name != "" && ':' !in name
    requires value == "" || value[|value| - 1] != '\r'
    ensures Takes(r, name, value, TakeLine(r, name + ": " + value))
    ensures (value == "" || value[0] != ' ') ==> Takes(r, name, value, TakeLine(r, name + ":" + value))
    ensures name[|name| - 1] != '\r' ==> Takes(r, name, "", TakeLine(r, name))
  {
    TakesIs(r, name, value);
    TakesIs(r, name, "");
    hide Takes, TakeField;
    SplitSpaced(name, value);
    SplitPlain(name, value);
    SplitAlone(name);
  }

  lemma TakesIs(r: Reader, name: string, value: string)
    requires r.frame.Frame?
    ensures Takes(r, name, value, TakeField(r, name, value))
  {
  }

  /** The line is neither empty nor a comment, and gives this field. */
  ghost predicate Gives(line: string, name: string, value: string) {
    StripCR(line) == line != "" && line[0] != ':' && SplitField(line) == (name, value)
  }

  lemma SplitSpaced(name: string, value: string)
    requires name != "" && ':' !in name && (value == "" || value[|value| - 1] != '\r')
    ensures Gives(name + ": " + value, name, value)
  {
    var line, n := name + ": " + value, |name|;
    assert line == name + [':'] + (" " + value);
    IndexAfter(name, ':', " " + value);
    hide IndexOf;
    assert line[n + 1] == ' ' && line[..n] == name && line[n + 2..] == value && line[0] == name[0];
    assert line[|line| - 1] == if value == "" then ' ' else value[|value| - 1];
  }

  lemma SplitPlain(name: string, value: string)
    requires name != "" && ':' !in name && (value == "" || value[|value| - 1] != '\r')
    ensures (value == "" || value[0] != ' ') ==> Gives(name + ":" + value, name, value)
  {
    var line, n := name + ":" + value, |name|;
    assert line == name + [':'] + value;
    IndexAfter(name, ':', value);
    hide IndexOf;
    assert line[..n] == name && line[n + 1..] == value && line[0] == name[0];
    assert line[|line| - 1] == if value == "" then ':' else value[|value| - 1];
    assert value != "" ==> line[n + 1] == value[0];
  }

  lemma SplitAlone(name: string)
    requires name != "" && ':' !in name
    ensures name[|name| - 1] != '\r' ==> Gives(name, name, "")
  {
    var i := IndexOf(name, ':');
    assert forall k :: 0 <= k < |name| ==> name[k] in name;
    hide IndexOf;
  }

  /** An empty line ends a frame if there is one, and a comment is a heartbeat between frames only. */
  lemma BlanksAndComments(r: Reader, text: string)
    requires r.frame.Frame? && (text == "" || text[|text| - 1] != '\r')
    ensures TakeLine(r, "") ==
      if r.pending
      then Reader(Frame.Frame("", "", ""), false, false, if r.frame.id != "" then r.frame.id else r.lastID,
                  r.frames + [r.frame])
      else Reader(Frame.Frame("", "", ""), false, false, r.lastID, r.frames)
    ensures TakeLine(r, ":" + text) == if r.pending then r else r.(frames := r.frames + [Comment])
  {
    var line := ":" + text;
    assert line[|line| - 1] == if text == "" then ':' else text[|text| - 1];
  }

  // ------------------------------------------------------- what a server sends

  /** Text on one line whose last character the reader will not take for part of a line end. */
  predicate OneLine(s: string) { '\n' !in s && (s != "" ==> s[|s| - 1] != '\r') }

  /** The lines of a payload. */
  function Pieces(data: string): seq<string> { Lines(data) + [Rest(data)] }

  /** An event name and an id fit on a line; a payload may have several. */
  predicate Sendable(f: Frame) {
    f.Frame? ==>
      && OneLine(f.event) && OneLine(f.id) && '\0' !in f.id
      && forall i :: 0 <= i < |Pieces(f.data)| ==> OneLine(Pieces(f.data)[i])
  }

  function Field(name: string, value: string): string { name + ": " + value }

  function DataLines(pieces: seq<string>): seq<string> {
    if pieces == [] then [] else DataLines(pieces[..|pieces| - 1]) + [Field("data", pieces[|pieces| - 1])]
  }

  /** The lines of a frame before the empty one that ends it. An empty id is not sent. */
  function Body(event: string, id: string, data: string): seq<string> {
    [Field("event", event)] + (if id == "" then [] else [Field("id", id)]) + DataLines(Pieces(data))
  }

  /** The lines a frame is sent as. */
  function Sent(f: Frame): seq<string> {
    match f
    case Comment => [":"]
    case Frame(event, id, data) => Body(event, id, data) + [""]
  }

  function SentAll(fs: seq<Frame>): seq<string> {
    if fs == [] then [] else SentAll(fs[..|fs| - 1]) + Sent(fs[|fs| - 1])
  }

  /** The bytes of a stream of frames. */
  function Encode(fs: seq<Frame>): Bytes { Join(SentAll(fs)) }

  /** The id to resume after: the last one that is not empty. */
  function LastID(fs: seq<Frame>): string {
    if fs == [] then ""
    else if fs[|fs| - 1].Frame? && fs[|fs| - 1].id != "" then fs[|fs| - 1].id
    else LastID(fs[..|fs| - 1])
  }

  /** The reader after whole frames: nothing pending. */
  function Between(fs: seq<Frame>): Reader { Reader(EMPTY, false, false, LastID(fs), fs) }

  /** A line "name: value" takes the field. */
  lemma FieldLine(r: Reader, name: string, value: string)
    requires r.frame.Frame? && name != "" && ':' !in name && OneLine(value)
    ensures TakeLine(r, Field(name, value)) == TakeField(r, name, value)
  {
    hide TakeField;
    SplitSpaced(name, value);
  }

  lemma EventLine(r: Reader, v: string)
    requires r.frame.Frame? && OneLine(v)
    ensures TakeLine(r, Field("event", v)) == r.(pending := true, frame := r.frame.(event := v))
  {
    hide TakeLine;
    FieldLine(r, "event", v);
  }

  lemma IDLine(r: Reader, v: string)
    requires r.frame.Frame? && OneLine(v) && '\0' !in v
    ensures TakeLine(r, Field("id", v)) == r.(pending := true, frame := r.frame.(id := v))
  {
    hide TakeLine;
    FieldLine(r, "id", v);
  }

  lemma DataLine(r: Reader, v: string)
    requires r.frame.Frame? && OneLine(v)
    ensures TakeLine(r, Field("data", v)) ==
      r.(pending := true, hasData := true,
         frame := r.frame.(data := if r.hasData then r.frame.data + "\n" + v else v))
  {
    hide TakeLine;
    FieldLine(r, "data", v);
  }

  lemma BlankLine(r: Reader)
    requires r.frame.Frame? && r.pending
    ensures TakeLine(r, "") ==
      Reader(EMPTY, false, false, if r.frame.id != "" then r.frame.id else r.lastID, r.frames + [r.frame])
  {
  }

  lemma HeartbeatLine(r: Reader)
    requires r.frame.Frame? && !r.pending
    ensures TakeLine(r, ":") == r.(frames := r.frames + [Comment])
  {
    assert StripCR(":") == ":";
  }

  /** A payload as the reader puts it together: pieces with newlines between. */
  function Rejoin(pieces: seq<string>): string
    requires pieces != []
  {
    Join(pieces[..|pieces| - 1]) + pieces[|pieces| - 1]
  }

  lemma RejoinStep(front: seq<string>, last: string)
    ensures Rejoin(front + [last]) == if front == [] then last else Rejoin(front) + "\n" + last
  {
    assert (front + [last])[..|front|] == front;
    if front != [] {
      assert Join(front) == Join(front[..|front| - 1]) + front[|front| - 1] + ['\n'];
    } else {
      assert Join([]) + last == last;
    }
  }

  /** Data lines are rejoined with newlines. */
  lemma {:induction false} DataIsRejoined(r: Reader, pieces: seq<string>)
    requires r.frame.Frame? && !r.hasData && forall i :: 0 <= i < |pieces| ==> OneLine(pieces[i])
    ensures TakeLines(r, DataLines(pieces)) ==
      if pieces == [] then r else r.(pending := true, hasData := true, frame := r.frame.(data := Rejoin(pieces)))
  {
    hide TakeLine, Field, OneLine, Rejoin;
    if pieces != [] {
      var front, last := pieces[..|pieces| - 1], pieces[|pieces| - 1];
      DataIsRejoined(r, front);
      TakeOneMore(r, DataLines(front), Field("data", last));
      DataLine(TakeLines(r, DataLines(front)), last);
      hide TakeLines;
      assert front + [last] == pieces;
      RejoinStep(front, last);
    }
  }

  /** The lines of a frame before its empty one gather it whole. */
  lemma BodyGathers(front: seq<Frame>, f: Frame)
    requires f.Frame? && Sendable(f)
    ensures TakeLines(Between(front), Body(f.event, f.id, f.data)) ==
      Between(front).(pending := true, hasData := true, frame := f)
  {
    var r, event, data := Between(front), [Field("event", f.event)], DataLines(Pieces(f.data));
    var head := event + (if f.id == "" then [] else [Field("id", f.id)]);
    hide TakeLine, Field, LastID, DataLines, Lines, Rest, Join;
    TakeMore(r, head, data);
    TakeOneMore(r, [], Field("event", f.event));
    assert [] + event == event && event + [] == event && TakeLines(r, []) == r;
    EventLine(r, f.event);
    if f.id != "" {
      TakeOneMore(r, event, Field("id", f.id));
      IDLine(TakeLines(r, event), f.id);
    }
    DataIsRejoined(TakeLines(r, head), Pieces(f.data));
    LinesJoin(f.data);
    assert Pieces(f.data)[..|Lines(f.data)|] == Lines(f.data);
  }

  lemma OneMoreFrame(front: seq<Frame>, f: Frame)
    requires Sendable(f)
    ensures TakeLines(Between(front), Sent(f)) == Between(front + [f])
  {
    assert (front + [f])[..|front|] == front;
    hide TakeLine, Body;
    if f.Frame? {
      var body := Body(f.event, f.id, f.data);
      BodyGathers(front, f);
      TakeOneMore(Between(front), body, "");
      BlankLine(TakeLines(Between(front), body));
    } else {
      TakeOneMore(Between(front), [], ":");
      assert [] + [":"] == [":"];
      HeartbeatLine(Between(front));
    }
  }

  /** Whole frames are read back exactly. */
  lemma {:induction false} WholeFrames(fs: seq<Frame>)
    requires forall i :: 0 <= i < |fs| ==> Sendable(fs[i])
    ensures TakeLines(START, SentAll(fs)) == Between(fs)
  {
    hide TakeLine, Sent, Sendable, TakeLines, SentAll, Between;
    if fs != [] {
      var front, f := fs[..|fs| - 1], fs[|fs| - 1];
      WholeFrames(front);
      OneMoreFrame(front, f);
      TakeMore(START, SentAll(front), Sent(f));
      assert front + [f] == fs;
      SentStep(front, f);
    } else {
      NoFrames();
    }
  }

  lemma NoFrames()
    ensures TakeLines(START, SentAll([])) == Between([])
  {
  }

  lemma SentStep(front: seq<Frame>, f: Frame)
    ensures SentAll(front + [f]) == SentAll(front) + Sent(f)
  {
    hide Sent;
    assert (front + [f])[..|front|] == front;
  }

  /** A line that can only be a field of a frame. */
  predicate FieldLike(line: string) { line != "" && line[0] != ':' && line[|line| - 1] != '\r' }

  /** Fields deliver nothing. */
  lemma {:induction false} FieldsDeliverNothing(r: Reader, lines: seq<string>)
    requires r.frame.Frame? && forall i :: 0 <= i < |lines| ==> FieldLike(lines[i])
    ensures TakeLines(r, lines).frames == r.frames && TakeLines(r, lines).lastID == r.lastID
  {
    hide SplitField;
    if lines != [] { FieldsDeliverNothing(r, lines[..|lines| - 1]); }
  }

  lemma FieldIsFieldLike(name: string, v: string)
    requires name != "" && ':' !in name && OneLine(v) && '\n' !in name
    ensures FieldLike(Field(name, v)) && '\n' !in Field(name, v)
  {
    assert Field(name, v)[0] == name[0];
    if v != "" { assert Field(name, v)[|Field(name, v)| - 1] == v[|v| - 1]; }
  }

  lemma {:induction false} DataLinesAreFields(pieces: seq<string>)
    requires forall i :: 0 <= i < |pieces| ==> OneLine(pieces[i])
    ensures forall i :: 0 <= i < |DataLines(pieces)| ==>
      FieldLike(DataLines(pieces)[i]) && '\n' !in DataLines(pieces)[i]
  {
    hide Field, FieldLike;
    if pieces != [] {
      DataLinesAreFields(pieces[..|pieces| - 1]);
      FieldIsFieldLike("data", pieces[|pieces| - 1]);
    }
  }

  lemma BodyIsFields(f: Frame)
    requires f.Frame? && Sendable(f)
    ensures var body := Body(f.event, f.id, f.data);
            forall i :: 0 <= i < |body| ==> FieldLike(body[i]) && '\n' !in body[i]
  {
    hide Field, FieldLike;
    FieldIsFieldLike("event", f.event);
    FieldIsFieldLike("id", f.id);
    DataLinesAreFields(Pieces(f.data));
  }

  // ------------------------------------------------------------- cut streams

  lemma {:induction false} JoinAppend(a: seq<Bytes>, b: seq<Bytes>)
    ensures Join(a + b) == Join(a) + Join(b)
  {
    hide Join;
    JoinNothing();
    if b == [] {
      assert a + b == a;
    } else {
      var front, last := b[..|b| - 1], b[|b| - 1];
      JoinAppend(a, front);
      assert a + b == (a + front) + [last] && b == front + [last];
      JoinStep(a + front, last);
      JoinStep(front, last);
      Regroup(Join(a), Join(front), last + ['\n']);
    }
  }

  lemma JoinNothing()
    ensures Join([]) == ""
  {
  }

  /** Joined lines split back into themselves. */
  lemma {:induction false} LinesOfJoin(lines: seq<Bytes>)
    requires forall i :: 0 <= i < |lines| ==> '\n' !in lines[i]
    ensures Lines(Join(lines)) == lines && Rest(Join(lines)) == []
  {
    if lines != [] {
      var front, last := lines[..|lines| - 1], lines[|lines| - 1];
      var head := Join(front);
      assert Join(lines) == head + last + ['\n'];
      LinesOfJoin(front);
      hide Lines, Rest, Join;
      AppendText(head, last);
      AppendNewline(head + last);
      assert [] + last == last && front + [last] == lines;
    }
  }

  lemma JoinOfPrefix(lines: seq<Bytes>, n: nat)
    requires n <= |lines|
    ensures Join(lines[..n]) <= Join(lines)
  {
    hide Join;
    assert lines[..n] + lines[n..] == lines;
    JoinAppend(lines[..n], lines[n..]);
  }

  /** Cutting joined lines anywhere leaves exactly the lines that came through whole. */
  lemma CutLines(lines: seq<Bytes>, cut: nat) returns (n: nat)
    requires cut <= |Join(lines)| && forall i :: 0 <= i < |lines| ==> '\n' !in lines[i]
    ensures n <= |lines| && Lines(Join(lines)[..cut]) == lines[..n]
    ensures |Join(lines[..n])| <= cut
    ensures forall m :: n < m <= |lines| ==> cut < |Join(lines[..m])|
  {
    hide Lines, Join, Rest;
    var s := Join(lines);
    LinesOfJoin(lines);
    assert s[..cut] + s[cut..] == s;
    LinesGrow(s[..cut], s[cut..]);
    n := |Lines(s[..cut])|;
    LinesJoin(s[..cut]);
    forall m | n < m <= |lines| ensures cut < |Join(lines[..m])| {
      JoinOfPrefix(lines, m);
      LinesOfJoin(lines[..m]);
      var t := Join(lines[..m]);
      if |t| <= cut {
        assert s[..cut] == t + s[|t|..cut];
        LinesGrow(t, s[|t|..cut]);
      }
    }
  }

  lemma {:induction false} SentIsLines(fs: seq<Frame>)
    requires forall i :: 0 <= i < |fs| ==> Sendable(fs[i])
    ensures forall i :: 0 <= i < |SentAll(fs)| ==> '\n' !in SentAll(fs)[i]
  {
    hide Body, Sendable, FieldLike;
    if fs != [] {
      SentIsLines(fs[..|fs| - 1]);
      if fs[|fs| - 1].Frame? { BodyIsFields(fs[|fs| - 1]); }
    }
  }

  /** The first n lines sent hold exactly the first j frames whole, and deliver those. */
  ghost predicate Holds(fs: seq<Frame>, n: nat, j: nat)
    requires n <= |SentAll(fs)|
  {
    && j <= |fs| && |SentAll(fs[..j])| <= n && (j < |fs| ==> n < |SentAll(fs[..j + 1])|)
    && TakeLines(START, SentAll(fs)[..n]).frames == fs[..j]
    && TakeLines(START, SentAll(fs)[..n]).lastID == LastID(fs[..j])
  }

  lemma {:induction false} SomeLines(fs: seq<Frame>, n: nat) returns (j: nat)
    requires n <= |SentAll(fs)| && forall i :: 0 <= i < |fs| ==> Sendable(fs[i])
    ensures Holds(fs, n, j)
  {
    hide Sendable, Sent, TakeLines;
    if n == |SentAll(fs)| {
      hide SentAll;
      j := |fs|;
      WholeFrames(fs);
      assert SentAll(fs)[..n] == SentAll(fs) && fs[..|fs|] == fs;
    } else {
      var front, f := fs[..|fs| - 1], fs[|fs| - 1];
      assert SentAll(fs) == SentAll(front) + Sent(f);
      assert fs == front + [f];
      hide Holds, SentAll, TakeLines, Sent;
      if n < |SentAll(front)| {
        j := SomeLines(front, n);
        InFront(front, f, n, j);
      } else {
        j := |front|;
        WholeFrames(front);
        InLast(front, f, n);
      }
    }
  }

  lemma InFront(front: seq<Frame>, f: Frame, n: nat, j: nat)
    requires n < |SentAll(front)| && SentAll(front + [f]) == SentAll(front) + Sent(f) && Holds(front, n, j)
    ensures Holds(front + [f], n, j)
  {
    var fs := front + [f];
    hide SentAll, TakeLines, LastID, Sent;
    assert SentAll(fs)[..n] == SentAll(front)[..n];
    assert fs[..j] == front[..j];
    if j < |front| {
      assert fs[..j + 1] == front[..j + 1];
    }
  }

  lemma InLast(front: seq<Frame>, f: Frame, n: nat)
    requires SentAll(front + [f]) == SentAll(front) + Sent(f) && Sendable(f)
    requires |SentAll(front)| <= n < |SentAll(front + [f])| && TakeLines(START, SentAll(front)) == Between(front)
    ensures Holds(front + [f], n, |front|)
  {
    var fs, lines := front + [f], SentAll(front);
    hide SentAll, TakeLines, LastID, Sent, Sendable;
    assert SentAll(fs)[..n] == lines + Sent(f)[..n - |lines|];
    SomeOfOneFrame(lines, front, f, n - |lines|);
    assert fs[..|front|] == front && fs[..|front| + 1] == fs;
  }

  lemma SomeOfOneFrame(lines: seq<string>, front: seq<Frame>, f: Frame, k: nat)
    requires Sendable(f) && k < |Sent(f)| && TakeLines(START, lines) == Between(front)
    ensures TakeLines(START, lines + Sent(f)[..k]).frames == front
    ensures TakeLines(START, lines + Sent(f)[..k]).lastID == LastID(front)
  {
    hide TakeLine, LastID, Body, Sendable;
    TakeMore(START, lines, Sent(f)[..k]);
    if f.Frame? {
      var body := Body(f.event, f.id, f.data);
      BodyIsFields(f);
      assert Sent(f)[..k] == body[..k];
      hide FieldLike;
      FieldsDeliverNothing(Between(front), body[..k]);
    }
  }

  lemma {:induction false} SentPrefix(fs: seq<Frame>, j: nat)
    requires j <= |fs|
    ensures SentAll(fs[..j]) <= SentAll(fs)
  {
    if j == |fs| {
      assert fs[..j] == fs;
    } else {
      SentPrefix(fs[..|fs| - 1], j);
      assert fs[..|fs| - 1][..j] == fs[..j];
    }
  }

  /** The bytes of the first frames, among the lines of all of them. */
  lemma EncodedPrefix(fs: seq<Frame>, j: nat)
    requires j <= |fs|
    ensures |SentAll(fs[..j])| <= |SentAll(fs)| && SentAll(fs)[..|SentAll(fs[..j])|] == SentAll(fs[..j])
  {
    SentPrefix(fs, j);
  }

  /** What is left of a stream cut after some byte, when the reader takes only the first `read` of
      its lines: exactly the frames that end within them, and the last id among those. */
  lemma CutRead(fs: seq<Frame>, cut: nat, read: nat) returns (j: nat)
    requires cut <= |Encode(fs)| && forall i :: 0 <= i < |fs| ==> Sendable(fs[i])
    requires read <= |Lines(Encode(fs)[..cut])|
    ensures var r := TakeLines(START, Lines(Encode(fs)[..cut])[..read]);
            j <= |fs| && r.frames == fs[..j] && r.lastID == LastID(fs[..j])
    ensures |SentAll(fs[..j])| <= read && (j < |fs| ==> read < |SentAll(fs[..j + 1])|)
    ensures |Encode(fs[..j])| <= cut
    ensures read == |Lines(Encode(fs)[..cut])| && j < |fs| ==> cut < |Encode(fs[..j + 1])|
  {
    var lines := SentAll(fs);
    SentIsLines(fs);
    hide Lines, TakeLines, SentAll, LastID, Sendable, Join;
    var n := CutLines(lines, cut);
    assert lines[..n][..read] == lines[..read];
    j := SomeLines(fs, read);
    EncodedPrefix(fs, j);
    EncodedPrefix(fs, if j < |fs| then j + 1 else j);
    hide Holds;
    JoinShorter(lines, |SentAll(fs[..j])|, n);
  }

  /** A stream of frames cut after any byte delivers exactly the frames that came through whole,
      and names the last id among them as the place to resume. */
  lemma CutStream(fs: seq<Frame>, cut: nat) returns (j: nat)
    requires cut <= |Encode(fs)| && forall i :: 0 <= i < |fs| ==> Sendable(fs[i])
    ensures j <= |fs| && |Encode(fs[..j])| <= cut && (j < |fs| ==> cut < |Encode(fs[..j + 1])|)
    ensures var r := TakeLines(START, Lines(Encode(fs)[..cut])); r.frames == fs[..j] && r.lastID == LastID(fs[..j])
  {
    hide Encode, Lines, TakeLines, SentAll, LastID, Sendable;
    var all := Lines(Encode(fs)[..cut]);
    j := CutRead(fs, cut, |all|);
    assert all[..|all|] == all;
  }

  lemma EncodedShorter(fs: seq<Frame>, j: nat)
    requires j <= |fs|
    ensures |Encode(fs[..j])| <= |Encode(fs)|
  {
    EncodedPrefix(fs, j);
    hide SentAll, Join;
    var lines := SentAll(fs);
    assert lines[..|lines|] == lines;
    JoinShorter(lines, |SentAll(fs[..j])|, |lines|);
  }

  lemma JoinShorter(lines: seq<Bytes>, m: nat, n: nat)
    requires m <= n <= |lines|
    ensures |Join(lines[..m])| <= |Join(lines[..n])|
  {
    hide Join;
    assert lines[..n][..m] == lines[..m];
    JoinOfPrefix(lines[..n], m);
  }
}
