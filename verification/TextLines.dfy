/** Bytes in pieces: concatenation, newline-terminated lines, and searching for a separator. */
module TextLines {

  type Bytes = string // one char stands for one byte

  lemma Regroup<T>(x: seq<T>, y: seq<T>, z: seq<T>)
    ensures x + y + z == x + (y + z)
  {
  }

  /** The complete lines of s, without their newlines. */
  function Lines(s: Bytes): seq<Bytes> {
    if s == [] then []
    else if s[|s| - 1] == '\n' then Lines(s[..|s| - 1]) + [Rest(s[..|s| - 1])]
    else Lines(s[..|s| - 1])
  }

  /** What follows the last newline of s. */
  function Rest(s: Bytes): Bytes {
    if s == [] || s[|s| - 1] == '\n' then [] else Rest(s[..|s| - 1]) + [s[|s| - 1]]
  }

  function Join(lines: seq<Bytes>): Bytes {
    if lines == [] then [] else Join(lines[..|lines| - 1]) + lines[|lines| - 1] + ['\n']
  }

  lemma {:induction false} LinesGiveBack(s: Bytes)
    ensures Join(Lines(s)) + Rest(s) == s
  {
    if s == [] {
      assert Join([]) + [] == [];
    } else {
      hide Lines, Rest, Join;
      var front, c := s[..|s| - 1], s[|s| - 1];
      LinesGiveBack(front);
      assert s == front + [c];
      OneMore(front, c);
      JoinStep(Lines(front), Rest(front));
      Regroup(Join(Lines(front)), Rest(front), [c]);
    }
  }

  lemma {:induction false} LinesHoldNoNewline(s: Bytes)
    ensures '\n' !in Rest(s) && forall i :: 0 <= i < |Lines(s)| ==> '\n' !in Lines(s)[i]
  {
    if s != [] { LinesHoldNoNewline(s[..|s| - 1]); }
  }

  /** Splitting loses nothing, and leaves no newline in any line or in the rest. */
  lemma LinesJoin(s: Bytes)
    ensures Join(Lines(s)) + Rest(s) == s
    ensures '\n' !in Rest(s) && forall i :: 0 <= i < |Lines(s)| ==> '\n' !in Lines(s)[i]
  {
    LinesGiveBack(s);
    LinesHoldNoNewline(s);
  }

  lemma JoinStep(lines: seq<Bytes>, last: Bytes)
    ensures Join(lines + [last]) == Join(lines) + (last + ['\n'])
  {
    assert (lines + [last])[..|lines|] == lines;
  }

  /** Text without a newline only lengthens the rest. */
  lemma {:induction false} AppendText(s: Bytes, t: Bytes)
    requires '\n' !in t
    ensures Lines(s + t) == Lines(s) && Rest(s + t) == Rest(s) + t
  {
    hide Lines, Rest;
    if t == [] {
      assert s + t == s && Rest(s) + t == Rest(s);
    } else {
      var front, c := t[..|t| - 1], t[|t| - 1];
      AppendText(s, front);
      OneMore(s + front, c);
      assert t == front + [c];
      Regroup(s, front, [c]);
      Regroup(Rest(s), front, [c]);
    }
  }

  lemma OneMore(s: Bytes, c: char)
    ensures Lines(s + [c]) == if c == '\n' then Lines(s) + [Rest(s)] else Lines(s)
    ensures Rest(s + [c]) == if c == '\n' then [] else Rest(s) + [c]
  {
    assert (s + [c])[..|s|] == s;
  }

  /** A newline turns the rest into a line. */
  lemma AppendNewline(s: Bytes)
    ensures Lines(s + ['\n']) == Lines(s) + [Rest(s)] && Rest(s + ['\n']) == []
  {
    assert (s + ['\n'])[..|s|] == s;
  }

  /** `bytes.IndexByte(p, '\n')`, with |p| for none. */
  method IndexNewline(p: Bytes) returns (i: nat)
    ensures i <= |p| && '\n' !in p[..i] && (i < |p| ==> p[i] == '\n')
  {
    i := 0;
    while i < |p| && p[i] != '\n'
      invariant i <= |p| && '\n' !in p[..i]
    {
      i := i + 1;
    }
  }

  /** Pieces put back together. */
  function Concat(chunks: seq<Bytes>): Bytes {
    if chunks == [] then [] else Concat(chunks[..|chunks| - 1]) + chunks[|chunks| - 1]
  }

  /** Where the first c is, |s| for none. */
  function IndexOf(s: string, c: char): (i: nat)
    ensures i <= |s| && c !in s[..i] && (i < |s| ==> s[i] == c)
  {
    if s == "" || s[0] == c then 0
    else
      assert s[..1 + IndexOf(s[1..], c)] == [s[0]] + s[1..][..IndexOf(s[1..], c)];
      1 + IndexOf(s[1..], c)
  }

  lemma IndexAfter(head: string, c: char, rest: string)
    requires c !in head
    ensures IndexOf(head + [c] + rest, c) == |head|
  {
    var s := head + [c] + rest;
    var i := IndexOf(s, c);
    assert s[|head|] == c && forall k :: 0 <= k < |head| ==> s[k] == head[k] && head[k] in head;
    assert forall k :: 0 <= k < i ==> s[k] == s[..i][k];
  }
}
