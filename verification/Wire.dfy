/** Where the reader of internal/sse/sse.go meets the client of internal/circleci/client.go: a
    connection cut after any byte is one of the connections the client was proved against. */
module Wire {
  import Sse
  import Stream = OutputStream
  import opened Cursor
  import opened TextLines

  /** How the server writes an event on the wire. */
  datatype Format = Format(name: Stream.Event -> string, payload: Stream.Event -> string)

  function Written(item: Stream.Item, format: Format): Sse.Frame {
    match item
    case Comment => Sse.Comment
    case Whole(f) => Sse.Frame.Frame(format.name(f.event), f.id, format.payload(f.event))
  }

  function WrittenAll(items: seq<Stream.Item>, format: Format): seq<Sse.Frame> {
    seq(|items|, i requires 0 <= i < |items| => Written(items[i], format))
  }

  /** Names fit on a line, and so does every line of a payload. */
  ghost predicate WellFormatted(format: Format) {
    forall e :: Sse.Sendable(Sse.Frame.Frame(format.name(e), "", format.payload(e)))
  }

  /** What a shorter script delivers is a beginning of what the whole script does. */
  lemma {:induction false} ShorterScript(c: Stream.Command, at: Offsets, script: seq<Stream.Tick>, j: nat)
      returns (m: nat)
    requires c.Within(at) && j <= |Stream.Deliver(c, at, script)|
    ensures m <= |script| && Stream.Deliver(c, at, script[..m]) == Stream.Deliver(c, at, script)[..j]
  {
    if j == |Stream.Deliver(c, at, script)| {
      m := |script|;
      assert script[..m] == script;
    } else {
      var front := script[..|script| - 1];
      OneItemATick(c, Stream.Reach(c, at, front), script[|script| - 1]);
      hide Stream.Sends, Stream.Reach;
      m := ShorterScript(c, at, front, j);
      assert front[..m] == script[..m];
    }
  }

  lemma OneItemATick(c: Stream.Command, at: Offsets, tick: Stream.Tick)
    requires c.Within(at)
    ensures |Stream.Sends(c, at, tick)| <= 1
  {
  }

  /** Every id is empty or a cursor. */
  ghost predicate Identified(items: seq<Stream.Item>) {
    forall i :: 0 <= i < |items| && items[i].Whole? ==>
      items[i].frame.id == "" || exists o :: items[i].frame.id == CursorText(o)
  }

  lemma {:induction false} DeliveredAreIdentified(c: Stream.Command, at: Offsets, script: seq<Stream.Tick>)
    requires c.Within(at)
    ensures Identified(Stream.Deliver(c, at, script))
  {
    hide CursorText, Stream.Reach;
    if script != [] {
      var front := script[..|script| - 1];
      DeliveredAreIdentified(c, at, front);
      var more := Stream.Sends(c, Stream.Reach(c, at, front), script[|script| - 1]);
      assert Identified(more);
    }
  }

  lemma CursorIsSendable(format: Format, f: Stream.Frame)
    requires WellFormatted(format) && (f.id == "" || exists o :: f.id == CursorText(o))
    ensures Sse.Sendable(Written(Stream.Whole(f), format))
  {
    if f.id != "" {
      var o :| f.id == CursorText(o);
      CursorIsPlain(o);
      assert f.id[|f.id| - 1] in f.id;
      assert '\0' !in f.id && Sse.OneLine(f.id);
    }
    hide CursorText, Sse.Pieces;
    assert Sse.Sendable(Sse.Frame.Frame(format.name(f.event), "", format.payload(f.event)));
  }

  lemma {:induction false} SameLastID(items: seq<Stream.Item>, format: Format)
    ensures Sse.LastID(WrittenAll(items, format)) == Stream.LastFrameID(Stream.Frames(items))
  {
    hide Stream.LastFrameID;
    Stream.FrameStart();
    if items != [] {
      var front := items[..|items| - 1];
      SameLastID(front, format);
      var all := WrittenAll(items, format);
      assert all[..|all| - 1] == WrittenAll(front, format);
      var fs := Stream.Frames(front);
      assert fs + [] == fs;
      if items[|items| - 1].Whole? { Stream.FrameStep(fs, items[|items| - 1].frame); }
    }
  }

  /** The bytes of a connection, cut anywhere and read up to any line: the reader hands on what
      some shorter script delivers, and reports the last id of its frames as the cursor. */
  lemma CutConnection(c: Stream.Command, at: Offsets, script: seq<Stream.Tick>, format: Format, cut: nat, read: nat)
      returns (m: nat)
    requires c.Within(at) && WellFormatted(format)
    requires cut <= |Bytes(c, at, script, format)| && read <= |Lines(Bytes(c, at, script, format)[..cut])|
    ensures m <= |script|
    ensures var r := Sse.TakeLines(Sse.START, Lines(Bytes(c, at, script, format)[..cut])[..read]);
            var items := Stream.Deliver(c, at, script[..m]);
            && r.frames == WrittenAll(items, format) && r.lastID == Stream.LastFrameID(Stream.Frames(items))
            && (cut == |Bytes(c, at, script, format)| && read == |Lines(Bytes(c, at, script, format)[..cut])|
                ==> items == Stream.Deliver(c, at, script))
  {
    hide Sse.Sendable, WellFormatted, Stream.Deliver, Stream.Frames, Lines, Sse.TakeLines, Sse.Encode, Sse.LastID,
      Stream.LastFrameID, Sse.SentAll, Identified;
    var items := Stream.Deliver(c, at, script);
    var all := WrittenAll(items, format);
    DeliveredAreIdentified(c, at, script);
    AllSendable(items, all, format);
    var j := Sse.CutRead(all, cut, read);
    m := ShorterScript(c, at, script, j);
    assert WrittenAll(items[..j], format) == all[..j];
    SameLastID(items[..j], format);
    hide WrittenAll;
    if j < |items| { Sse.EncodedShorter(all, j + 1); } else { assert items[..j] == items; }
  }

  lemma AllSendable(items: seq<Stream.Item>, all: seq<Sse.Frame>, format: Format)
    requires WellFormatted(format) && Identified(items) && all == WrittenAll(items, format)
    ensures forall i :: 0 <= i < |all| ==> Sse.Sendable(all[i])
  {
    hide WellFormatted, CursorText, Sse.Pieces;
    forall i | 0 <= i < |all| ensures Sse.Sendable(all[i]) {
      if items[i].Whole? { CursorIsSendable(format, items[i].frame); }
    }
  }

  /** The bytes a connection with this script would bring. */
  function Bytes(c: Stream.Command, at: Offsets, script: seq<Stream.Tick>, format: Format): string
    requires c.Within(at)
  {
    Sse.Encode(WrittenAll(Stream.Deliver(c, at, script), format))
  }

  /** The reader on a connection that drops after `cut` bytes, with its limit on lines: whatever
      happens, it delivers exactly what some shorter connection of the client model does, with the
      same cursor, and everything when nothing was cut and no line was too long. */
  method Receive(c: Stream.Command, at: Offsets, script: seq<Stream.Tick>, format: Format, cut: nat, limit: nat)
      returns (r: Sse.Reader, tooLarge: bool, ghost m: nat)
    requires c.Within(at) && WellFormatted(format) && cut <= |Bytes(c, at, script, format)|
    ensures m <= |script|
    ensures var items := Stream.Deliver(c, at, script[..m]);
            && r.frames == WrittenAll(items, format) && r.lastID == Stream.LastFrameID(Stream.Frames(items))
            && (cut == |Bytes(c, at, script, format)| && !tooLarge ==> items == Stream.Deliver(c, at, script))
  {
    hide Bytes, WellFormatted, Stream.Deliver, Stream.Frames, Lines, Sse.TakeLines, Stream.LastFrameID, Rest;
    var read;
    r, tooLarge, read := Sse.Scan(Bytes(c, at, script, format)[..cut], limit);
    m := CutConnection(c, at, script, format, cut, read);
  }
}
