/** Length-prefixed framing, after internal/hashutil/hashutil.go. */
module Framing {
  import opened Numbers
  import opened Options
  import opened TextLines

  function WritePart(part: string): string { Decimal(|part|) + ":" + part }

  function Frames(parts: seq<string>): string {
    if parts == [] then [] else WritePart(parts[0]) + Frames(parts[1..])
  }

  /** Reads frames back. */
  function Unframe(s: string): Option<seq<string>>
    decreases |s|
  {
    if s == [] then Some([])
    else
      var i := IndexOf(s, ':');
      if i == |s| then None
      else
        var n := Value(s[..i]);
        if n < 0 || i + 1 + n > |s| then None
        else match Unframe(s[i + 1 + n..])
          case None => None
          case Some(parts) => Some([s[i + 1..i + 1 + n]] + parts)
  }

  lemma UnframeOne(part: string, rest: string)
    ensures Unframe(WritePart(part) + rest) == match Unframe(rest) case None => None case Some(ps) => Some([part] + ps)
  {
    var len, s := Decimal(|part|), WritePart(part) + rest;
    DecimalReads(|part|);
    assert ':' !in len;
    hide Decimal, Value;
    IndexAfter(len, ':', part + rest);
    assert s == len + [':'] + (part + rest);
    hide IndexOf, WritePart;
    assert s[..|len|] == len;
    assert s[|len| + 1..] == part + rest;
    assert s[|len| + 1..|len| + 1 + |part|] == part;
    assert s[|len| + 1 + |part|..] == rest;
  }

  /** Framing any list of parts can be undone. */
  lemma {:induction false} UnframeFrames(parts: seq<string>)
    ensures Unframe(Frames(parts)) == Some(parts)
  {
    if parts != [] {
      UnframeOne(parts[0], Frames(parts[1..]));
      UnframeFrames(parts[1..]);
      assert [parts[0]] + parts[1..] == parts;
    }
  }

  /** So different lists of parts are never framed alike. */
  lemma FramesInjective(a: seq<string>, b: seq<string>)
    requires Frames(a) == Frames(b)
    ensures a == b
  {
    UnframeFrames(a);
    UnframeFrames(b);
  }

  lemma {:induction false} FramesAppend(a: seq<string>, b: seq<string>)
    ensures Frames(a + b) == Frames(a) + Frames(b)
  {
    hide WritePart;
    if a == [] {
      assert a + b == b;
    } else {
      FramesAppend(a[1..], b);
      assert (a + b)[1..] == a[1..] + b;
    }
  }

  /** A part is written as its length in decimal, a ':' and itself, one part after the other. */
  lemma FramesAre(parts: seq<string>, part: string)
    ensures Frames([]) == ""
    ensures Frames(parts + [part]) == Frames(parts) + (Decimal(|part|) + ":" + part)
  {
    FramesAppend(parts, [part]);
    OneFrame(part);
    hide Decimal;
  }

  /** A running hash: `fed` is everything written to it. */
  class Hash {
    var fed: string

    constructor ()
      ensures fed == []
    {
      fed := [];
    }

    method Feed(part: string)
      modifies this
      ensures fed == old(fed) + WritePart(part)
    {
      fed := fed + (Decimal(|part|) + ":");
      fed := fed + part;
    }
  }

  /** `SumParts`, for any hash function. */
  method SumParts(hash: string -> string, parts: seq<string>) returns (sum: string)
    ensures sum == hash(Frames(parts))
  {
    hide WritePart, Frames;
    var h := new Hash();
    NoFrames();
    for i := 0 to |parts|
      invariant fresh(h) && h.fed == Frames(parts[..i])
    {
      h.Feed(parts[i]);
      assert parts[..i + 1] == parts[..i] + [parts[i]];
      FramesAppend(parts[..i], [parts[i]]);
      OneFrame(parts[i]);
    }
    assert parts[..|parts|] == parts;
    sum := hash(h.fed);
  }

  lemma NoFrames()
    ensures Frames([]) == []
  {
  }

  lemma OneFrame(part: string)
    ensures Frames([part]) == WritePart(part)
  {
    hide WritePart;
  }
}
