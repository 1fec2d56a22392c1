/** The stream-json line parser of internal/factory/implementer.go.

    Bytes arrive in arbitrary pieces. What the parser has seen is a function of the concatenation
    alone: the newline-terminated lines of at most MAX_LINE_BYTES, in order. */
module LineParser {
  import opened Options
  import opened TextLines

  const MAX_LINE_BYTES: nat := 1048576

  function Fitting(lines: seq<Bytes>): seq<Bytes> {
    if lines == [] then []
    else Fitting(lines[..|lines| - 1]) + (if |lines[|lines| - 1]| <= MAX_LINE_BYTES then [lines[|lines| - 1]] else [])
  }

  // ------------------------------------------------------------- one line

  datatype Content = Text(text: string) | ToolUse(name: string, detail: string) | OtherContent

  datatype Kind = ResultEvent | AssistantEvent | OtherEvent

  datatype StreamEvent = StreamEvent(
    kind: Kind, sessionID: string, contents: seq<Content>, isError: bool, result: string)

  datatype Activity = Activity(tool: string, detail: string)

  /** What the parser knows. `Codec` stands for JSON decoding and text trimming. */
  datatype Seen = Seen(sessionID: string, result: Option<StreamEvent>, activity: seq<Activity>)

  datatype Codec = Codec(decode: Bytes -> Option<StreamEvent>, trim: string -> string)

  function Activities(cs: seq<Content>, codec: Codec): seq<Activity> {
    if cs == [] then []
    else
      Activities(cs[..|cs| - 1], codec) + ActivityOf(cs[|cs| - 1], codec)
  }

  function ActivityOf(c: Content, codec: Codec): seq<Activity> {
    match c
    case Text(t) => if codec.trim(t) != "" then [Activity("", codec.trim(t))] else []
    case ToolUse(name, detail) => [Activity(name, detail)]
    case OtherContent => []
  }

  lemma NoActivities(codec: Codec)
    ensures Activities([], codec) == []
  {
  }

  lemma ActivitiesStep(cs: seq<Content>, c: Content, codec: Codec)
    ensures Activities(cs + [c], codec) == Activities(cs, codec) + ActivityOf(c, codec)
  {
    hide ActivityOf;
    assert (cs + [c])[..|cs|] == cs;
  }

  /** The effect of one line. */
  function SeeLine(seen: Seen, line: Bytes, codec: Codec): Seen {
    match codec.decode(line)
    case None => seen
    case Some(e) =>
      Seen(if e.sessionID != "" then e.sessionID else seen.sessionID,
           if e.kind.ResultEvent? then Some(e) else seen.result,
           seen.activity + (if e.kind.AssistantEvent? then Activities(e.contents, codec) else []))
  }

  function See(lines: seq<Bytes>, codec: Codec): Seen {
    if lines == [] then Seen("", None, [])
    else SeeLine(See(lines[..|lines| - 1], codec), lines[|lines| - 1], codec)
  }

  // ------------------------------------------------------ what the lines say

  /** The line names this session. */
  ghost predicate Names(line: Bytes, codec: Codec, session: string) {
    session != "" && codec.decode(line).Some? && codec.decode(line).value.sessionID == session
  }

  /** The session is the one the last line that names any names. */
  lemma {:induction false} SessionIsLast(lines: seq<Bytes>, codec: Codec)
    ensures var session := See(lines, codec).sessionID;
            if session == "" then forall i, n :: 0 <= i < |lines| ==> !Names(lines[i], codec, n)
            else exists i :: 0 <= i < |lines| && Names(lines[i], codec, session)
                             && forall j, n :: i < j < |lines| ==> !Names(lines[j], codec, n)
  {
    if lines != [] {
      var front, line := lines[..|lines| - 1], lines[|lines| - 1];
      SessionIsLast(front, codec);
      assert forall i :: 0 <= i < |front| ==> front[i] == lines[i];
      var session := See(lines, codec).sessionID;
      if codec.decode(line).Some? && codec.decode(line).value.sessionID != "" {
        assert Names(lines[|lines| - 1], codec, session);
      } else {
        hide See, SeeLine;
        if See(front, codec).sessionID != "" {
          var i :| 0 <= i < |front| && Names(front[i], codec, See(front, codec).sessionID)
                   && forall j, n :: i < j < |front| ==> !Names(front[j], codec, n);
          assert Names(lines[i], codec, See(front, codec).sessionID);
        }
      }
    }
  }

  ghost predicate IsResult(line: Bytes, codec: Codec) {
    codec.decode(line).Some? && codec.decode(line).value.kind == ResultEvent
  }

  /** The result is the last result event. */
  lemma {:induction false} ResultIsLast(lines: seq<Bytes>, codec: Codec)
    ensures var result := See(lines, codec).result;
            if result == None then forall i :: 0 <= i < |lines| ==> !IsResult(lines[i], codec)
            else exists i :: 0 <= i < |lines| && IsResult(lines[i], codec) && codec.decode(lines[i]) == result
                             && forall j :: i < j < |lines| ==> !IsResult(lines[j], codec)
  {
    if lines != [] {
      var front, line := lines[..|lines| - 1], lines[|lines| - 1];
      ResultIsLast(front, codec);
      assert forall i :: 0 <= i < |front| ==> front[i] == lines[i];
      ResultOneMore(front, line, codec);
      assert front + [line] == lines;
      hide See, IsResult;
      if IsResult(line, codec) {
        assert IsResult(lines[|lines| - 1], codec);
      } else if See(front, codec).result.Some? {
        var i :| 0 <= i < |front| && IsResult(front[i], codec) && codec.decode(front[i]) == See(front, codec).result
                 && forall j :: i < j < |front| ==> !IsResult(front[j], codec);
        assert IsResult(lines[i], codec);
      }
    }
  }

  lemma ResultOneMore(lines: seq<Bytes>, line: Bytes, codec: Codec)
    ensures See(lines + [line], codec).result ==
      if IsResult(line, codec) then codec.decode(line) else See(lines, codec).result
    ensures IsResult(line, codec) ==> codec.decode(line).Some?
  {
    assert (lines + [line])[..|lines|] == lines;
  }

  function Flat(parts: seq<seq<Activity>>): seq<Activity> {
    if parts == [] then [] else Flat(parts[..|parts| - 1]) + parts[|parts| - 1]
  }

  /** A part of the activity for every content: a text that is not blank, trimmed, and a tool with
      what it acted on. */
  ghost predicate ContentParts(cs: seq<Content>, codec: Codec, parts: seq<seq<Activity>>) {
    && |parts| == |cs|
    && forall i :: 0 <= i < |cs| ==>
         parts[i] == match cs[i]
                     case Text(t) => (if codec.trim(t) == "" then [] else [Activity("", codec.trim(t))])
                     case ToolUse(name, detail) => [Activity(name, detail)]
                     case OtherContent => []
  }

  lemma {:induction false} ActivitiesAre(cs: seq<Content>, codec: Codec, parts: seq<seq<Activity>>)
    requires ContentParts(cs, codec, parts)
    ensures Activities(cs, codec) == Flat(parts)
  {
    if cs != [] {
      var c, part := cs[|cs| - 1], parts[|parts| - 1];
      assert part == ActivityOf(c, codec);
      ActivitiesAre(cs[..|cs| - 1], codec, parts[..|parts| - 1]);
    }
  }

  /** A part of the activity for every line: what an assistant event's contents come to, and
      nothing for any other line. */
  ghost predicate LineParts(lines: seq<Bytes>, codec: Codec, parts: seq<seq<Activity>>) {
    && |parts| == |lines|
    && forall i :: 0 <= i < |lines| ==>
         var e := codec.decode(lines[i]);
         if e.Some? && e.value.kind == AssistantEvent
         then exists cs :: ContentParts(e.value.contents, codec, cs) && parts[i] == Flat(cs)
         else parts[i] == []
  }

  /** The activity reported is that of the assistant events, in order. */
  lemma {:induction false} ActivityIs(lines: seq<Bytes>, codec: Codec, parts: seq<seq<Activity>>)
    requires LineParts(lines, codec, parts)
    ensures See(lines, codec).activity == Flat(parts)
  {
    if lines != [] {
      ActivityIs(lines[..|lines| - 1], codec, parts[..|parts| - 1]);
      var e, part := codec.decode(lines[|lines| - 1]), parts[|parts| - 1];
      hide ContentParts;
      if e.Some? && e.value.kind == AssistantEvent {
        var cs :| ContentParts(e.value.contents, codec, cs) && part == Flat(cs);
        ActivitiesAre(e.value.contents, codec, cs);
      }
      hide Activities;
    }
  }

  /** Which lines count: those of at most a mebibyte. */
  lemma FittingIs(lines: seq<Bytes>, line: Bytes)
    ensures Fitting([]) == []
    ensures Fitting(lines + [line]) == if |line| <= 1048576 then Fitting(lines) + [line] else Fitting(lines)
  {
    assert (lines + [line])[..|lines|] == lines;
  }

  // ------------------------------------------------------------ the parser

  class StreamParser {
    const codec: Codec
    var buf: Bytes
    var overflow: bool
    var sessionID: string
    var result: Option<StreamEvent> // Some once a result was seen
    var activity: seq<Activity>     // what onActivity was called with
    ghost var received: Bytes

    constructor (codec: Codec)
      ensures Valid() && received == [] && this.codec == codec
    {
      this.codec := codec;
      buf, overflow, sessionID, result, activity, received := [], false, "", None, [], [];
    }

    ghost predicate Knows(seen: Seen)
      reads this
    {
      sessionID == seen.sessionID && result == seen.result && activity == seen.activity
    }

    /** The unfinished line is in the buffer, or has overflowed. */
    ghost predicate Buffers(rest: Bytes)
      reads this
    {
      && |buf| <= MAX_LINE_BYTES
      && overflow == (|rest| > MAX_LINE_BYTES)
      && (!overflow ==> buf == rest)
    }

    /** The state is a function of the bytes received. */
    ghost predicate Valid()
      reads this
    {
      Knows(See(Fitting(Lines(received)), codec)) && Buffers(Rest(received))
    }

    method Line(b: Bytes, ghost before: Seen)
      requires Knows(before)
      modifies this`sessionID, this`result, this`activity
      ensures Knows(SeeLine(before, b, codec))
    {
      var e := codec.decode(b);
      if e.None? {
        return;
      }
      if e.value.sessionID != "" {
        sessionID := e.value.sessionID;
      }
      if e.value.kind.ResultEvent? {
        result := e;
      } else if e.value.kind.AssistantEvent? {
        Contents(e.value.contents);
      }
    }

    method Contents(cs: seq<Content>)
      modifies this`activity
      ensures activity == old(activity) + Activities(cs, codec)
    {
      hide Activities;
      NoActivities(codec);
      for i := 0 to |cs|
        invariant activity == old(activity) + Activities(cs[..i], codec)
      {
        assert cs[..i + 1] == cs[..i] + [cs[i]];
        ActivitiesStep(cs[..i], cs[i], codec);
        Regroup(old(activity), Activities(cs[..i], codec), ActivityOf(cs[i], codec));
        match cs[i] {
          case Text(t) =>
            if codec.trim(t) != "" {
              activity := activity + [Activity("", codec.trim(t))];
            }
          case ToolUse(name, detail) =>
            activity := activity + [Activity(name, detail)];
          case OtherContent =>
        }
      }
      assert cs[..|cs|] == cs;
    }

    method AppendPartial(data: Bytes, ghost rest: Bytes)
      requires Buffers(rest)
      modifies this`buf, this`overflow
      ensures Buffers(rest + data)
    {
      if overflow || |buf| + |data| > MAX_LINE_BYTES {
        overflow := true;
        return;
      }
      buf := buf + data;
    }

    method Write(data0: Bytes)
      requires Valid()
      modifies this
      ensures Valid() && received == old(received) + data0
    {
      hide See, SeeLine, Fitting, Lines, Rest;
      var data := data0;
      while |data| > 0
        invariant Valid() && received + data == old(received) + data0
      {
        var i := IndexNewline(data);
        assert data == data[..i] + data[i..];
        Regroup(received, data[..i], data[i..]);
        AppendText(received, data[..i]);
        if i == |data| {
          assert data[..i] == data;
          AppendPartial(data, Rest(received));
          received := received + data;
          return;
        }
        AppendPartial(data[..i], Rest(received));
        received := received + data[..i];
        ghost var line := Rest(received);
        LineDone(received, codec);
        if !overflow {
          Line(buf, See(Fitting(Lines(received)), codec));
        }
        assert data[i..] == ['\n'] + data[i + 1..];
        Regroup(received, ['\n'], data[i + 1..]);
        received := received + ['\n'];
        buf, overflow := [], false;
        data := data[i + 1..];
      }
    }

    /** The last line may lack its newline. */
    method Flush()
      requires Valid()
      modifies this
      ensures received == old(received) && buf == [] && !overflow
      ensures var rest := Rest(received);
              Knows(See(Fitting(Lines(received) + (if rest != [] then [rest] else [])), codec))
    {
      hide See, SeeLine, Fitting, Lines, Rest;
      LineDone(received, codec);
      AppendNewline(received);
      if |buf| > 0 && !overflow {
        Line(buf, See(Fitting(Lines(received)), codec));
      }
      buf, overflow := [], false;
      assert Lines(received) + [] == Lines(received);
    }
  }

  /** What the end of a line adds. */
  lemma LineDone(received: Bytes, codec: Codec)
    ensures var line, lines := Rest(received), Lines(received);
            && Lines(received + ['\n']) == lines + [line] && Rest(received + ['\n']) == []
            && See(Fitting(lines + [line]), codec) ==
                 if |line| <= MAX_LINE_BYTES then SeeLine(See(Fitting(lines), codec), line, codec)
                 else See(Fitting(lines), codec)
  {
    AppendNewline(received);
    var line, lines := Rest(received), Lines(received);
    hide SeeLine, Lines, Rest;
    assert (lines + [line])[..|lines|] == lines;
    if |line| <= MAX_LINE_BYTES {
      assert (Fitting(lines) + [line])[..|Fitting(lines)|] == Fitting(lines);
    } else {
      assert Fitting(lines + [line]) == Fitting(lines);
    }
  }

  /** A whole turn's output in any pieces: what is reported is a function of the bytes alone. */
  method ParseAll(chunks: seq<Bytes>, codec: Codec) returns (seen: Seen)
    ensures var s := Concat(chunks);
            seen == See(Fitting(Lines(s) + (if Rest(s) != [] then [Rest(s)] else [])), codec)
  {
    hide See, Fitting, Lines, Rest;
    var p := new StreamParser(codec);
    for k := 0 to |chunks|
      invariant p.Valid() && p.received == Concat(chunks[..k]) && fresh(p) && p.codec == codec
    {
      p.Write(chunks[k]);
      assert chunks[..k + 1][..k] == chunks[..k];
    }
    assert chunks[..|chunks|] == chunks;
    p.Flush();
    seen := Seen(p.sessionID, p.result, p.activity);
  }
}
