/** The streaming token redactor of internal/claudeauth/setuptoken.go.

    `Redact` is `tokenRe.ReplaceAllString(s, "[token redacted]")` on a whole text.
    `RedactWriter` is the incremental writer: it forwards text early and holds back only
    what a token could still start from. The module proves that the two agree for every
    way of splitting the text into writes. One `char` stands for one byte. */
module Redactor {
  import opened Numbers
  import opened TextLines

  const TOKEN_PREFIX := "sk-ant-oat"
  const MARK := "[token redacted]"

  // ---------------------------------------------------------------- the pattern

  predicate IsBody(c: char) {
    'A' <= c <= 'Z' || 'a' <= c <= 'z' || '0' <= c <= '9' || c == '_' || c == '-'
  }

  /** The fixed 13 characters every token begins with. */
  predicate IsHead(s: string) {
    |s| >= 13 && TOKEN_PREFIX <= s && IsDigit(s[10]) && IsDigit(s[11]) && s[12] == '-'
  }

  /** The language of `tokenRe`: t as a whole matches the pattern. */
  predicate IsToken(t: string) {
    IsHead(t) && |t| >= 33 && forall i :: 13 <= i < |t| ==> IsBody(t[i])
  }

  /** The words of the language: the prefix, two digits, a '-', and twenty or more letters,
      digits, '_' or '-'. */
  lemma TokenIs(t: string)
    ensures IsToken(t) <==>
      exists d: char, e: char, body: string ::
        && t == "sk-ant-oat" + [d, e, '-'] + body && '0' <= d <= '9' && '0' <= e <= '9' && |body| >= 20
        && forall i :: 0 <= i < |body| ==>
             var c := body[i]; 'a' <= c <= 'z' || 'A' <= c <= 'Z' || '0' <= c <= '9' || c == '_' || c == '-'
  {
    if IsToken(t) {
      var d, e, body := t[10], t[11], t[13..];
      assert t == "sk-ant-oat" + [d, e, '-'] + body;
      assert forall i :: 0 <= i < |body| ==> body[i] == t[13 + i] && IsBody(t[13 + i]);
    }
    forall d: char, e: char, body: string |
      && t == "sk-ant-oat" + [d, e, '-'] + body && '0' <= d <= '9' && '0' <= e <= '9' && |body| >= 20
      && (forall i :: 0 <= i < |body| ==>
            var c := body[i]; 'a' <= c <= 'z' || 'A' <= c <= 'Z' || '0' <= c <= '9' || c == '_' || c == '-')
      ensures IsToken(t)
    {
      assert t[..10] == TOKEN_PREFIX && t[10] == d && t[11] == e && t[12] == '-';
      assert forall i :: 13 <= i < |t| ==> t[i] == body[i - 13];
    }
  }

  ghost predicate TokenFree(s: string) {
    forall i, j :: 0 <= i <= j <= |s| ==> !IsToken(s[i..j])
  }

  /** How many characters of the body alphabet s begins with. */
  function BodyRun(s: string): (n: nat)
    ensures n <= |s|
  {
    if s != [] && IsBody(s[0]) then 1 + BodyRun(s[1..]) else 0
  }

  /** Length of the greedy match at the beginning of s, 0 when there is none. */
  function MatchLen(s: string): (n: nat)
    ensures n <= |s|
  {
    if IsHead(s) && BodyRun(s[13..]) >= 20 then 13 + BodyRun(s[13..]) else 0
  }

  /** Leftmost-longest replacement of every token in s. */
  function Redact(s: string): string
    decreases |s|
  {
    if s == [] then []
    else if MatchLen(s) > 0 then MARK + Redact(s[MatchLen(s)..])
    else [s[0]] + Redact(s[1..])
  }

  lemma {:induction false} BodyRunIsMaximal(s: string)
    ensures forall i :: 0 <= i < BodyRun(s) ==> IsBody(s[i])
    ensures BodyRun(s) < |s| ==> !IsBody(s[BodyRun(s)])
  {
    if s != [] && IsBody(s[0]) {
      BodyRunIsMaximal(s[1..]);
      forall i | 0 <= i < BodyRun(s) ensures IsBody(s[i]) {
        if i > 0 { assert s[i] == s[1..][i - 1]; }
      }
    }
  }

  /** The greedy match is the longest word of the language that s begins with. */
  lemma LongestMatch(s: string, m: nat)
    requires m <= |s|
    ensures MatchLen(s) > 0 ==> IsToken(s[..MatchLen(s)])
    ensures IsToken(s[..m]) ==> m <= MatchLen(s)
  {
    if IsHead(s) {
      var body, run := s[13..], BodyRun(s[13..]);
      BodyRunIsMaximal(body);
      if MatchLen(s) > 0 {
        var t := s[..13 + run];
        forall i | 13 <= i < |t| ensures IsBody(t[i]) {
          assert t[i] == body[i - 13];
        }
      }
      if 13 + run < m {
        assert s[..m][13 + run] == body[run];
      }
    }
  }

  lemma TokenAlphabet(t: string, i: nat)
    requires IsToken(t) && i < |t|
    ensures IsBody(t[i])
  {
    if i < 10 { assert t[i] == TOKEN_PREFIX[i]; }
  }

  // ------------------------------------------------------ what redaction means

  /** Redaction rewrites the leftmost token, at its longest, and goes on after it. */
  lemma {:induction false} LeftmostLongest(s: string, i: nat)
    requires i <= |s|
    requires forall k :: 0 <= k < i ==> MatchLen(s[k..]) == 0
    ensures Redact(s) == s[..i] + Redact(s[i..])
    decreases i
  {
    hide MatchLen, MARK, Redact;
    assert s[0..] == s;
    if i > 0 {
      assert forall k :: 0 <= k < i - 1 ==> s[1..][k..] == s[k + 1..];
      LeftmostLongest(s[1..], i - 1);
      ShowsFirst(s);
      assert s[1..][i - 1..] == s[i..] && s[..i] == [s[0]] + s[1..][..i - 1];
      Regroup([s[0]], s[1..][..i - 1], Redact(s[i..]));
    }
  }

  /** Where nothing matches, one character is shown. */
  lemma ShowsFirst(s: string)
    requires s != [] && MatchLen(s) == 0
    ensures Redact(s) == [s[0]] + Redact(s[1..])
  {
    hide MatchLen, MARK;
  }

  /** Up to its first marker, the redaction of s shows s unchanged. */
  lemma {:induction false} PlainPrefix(s: string, n: nat)
    requires n <= |Redact(s)|
    requires forall i :: 0 <= i < n ==> IsBody(Redact(s)[i])
    ensures Redact(s)[..n] <= s
    decreases |s|
  {
    if n > 0 {
      assert IsBody(Redact(s)[0]);
      assert s != [] && MatchLen(s) == 0;
      hide MatchLen, Redact, IsBody, MARK;
      ShowsFirst(s);
      var rest := Redact(s[1..]);
      assert forall i :: 0 <= i < n - 1 ==> rest[i] == Redact(s)[i + 1];
      PlainPrefix(s[1..], n - 1);
      assert Redact(s)[..n] == [s[0]] + rest[..n - 1];
    }
  }

  /** No token starts at the marker: every token is longer than the marker, whose last
      character is outside the token alphabet. */
  lemma MarkStartsNoToken(rest: string, i: nat, j: nat)
    requires i < |MARK| && i <= j <= |MARK + rest|
    ensures !IsToken((MARK + rest)[i..j])
  {
    var t := (MARK + rest)[i..j];
    if |t| > 15 - i {
      assert t[15 - i] == MARK[15];
      if IsToken(t) {
        TokenAlphabet(t, 15 - i);
      }
    }
  }

  /** No token starts at a character that was shown unchanged: it would have matched. */
  lemma NoTokenAtStart(s: string, j: nat)
    requires s != [] && MatchLen(s) == 0 && j <= |Redact(s)|
    ensures !IsToken(Redact(s)[..j])
  {
    var r := Redact(s);
    hide Redact, MatchLen, IsBody;
    assert IsToken(r[..j]) ==> j > 0;
    hide IsToken;
    if IsToken(r[..j]) {
      forall k | 0 <= k < j ensures IsBody(r[k]) {
        TokenAlphabet(r[..j], k);
      }
      PlainPrefix(s, j);
      LongestMatch(s, j);
    }
  }

  lemma TokenFreeAfter(head: string, tail: string)
    requires TokenFree(tail)
    requires forall i, j :: 0 <= i < |head| && i <= j <= |head + tail| ==> !IsToken((head + tail)[i..j])
    ensures TokenFree(head + tail)
  {
    hide IsToken;
    var s, n := head + tail, |head|;
    forall i, j | 0 <= i <= j <= |s| ensures !IsToken(s[i..j]) {
      if i >= n {
        assert s[i..j] == tail[i - n..j - n];
      }
    }
  }

  /** What redaction shows holds no token, across seams and around markers. */
  lemma {:induction false} RedactionIsTokenFree(s: string)
    ensures TokenFree(Redact(s))
    decreases |s|
  {
    if s != [] {
      hide IsToken, MatchLen;
      var n := MatchLen(s);
      var head, rest := if n > 0 then MARK else [s[0]], if n > 0 then s[n..] else s[1..];
      RedactionIsTokenFree(rest);
      assert Redact(s) == head + Redact(rest);
      forall i, j | 0 <= i < |head| && i <= j <= |Redact(s)| ensures !IsToken((head + Redact(rest))[i..j]) {
        if n > 0 {
          MarkStartsNoToken(Redact(rest), i, j);
        } else {
          NoTokenAtStart(s, j);
          assert Redact(s)[0..j] == Redact(s)[..j];
        }
      }
      TokenFreeAfter(head, Redact(rest));
    }
  }

  /** A text without tokens is shown as it is. */
  lemma {:induction false} TokenFreeUnchanged(s: string)
    requires TokenFree(s)
    ensures Redact(s) == s
    decreases |s|
  {
    if s != [] {
      LongestMatch(s, 0);
      assert s[0..MatchLen(s)] == s[..MatchLen(s)];
      assert forall i, j :: 0 <= i <= j <= |s| - 1 ==> s[1..][i..j] == s[i + 1..j + 1];
      TokenFreeUnchanged(s[1..]);
    }
  }

  // ------------------------------------------------- where a text may be cut

  lemma MatchWithin(s: string, k: nat)
    requires k < |s| && !IsBody(s[k])
    ensures MatchLen(s) <= k
  {
    if MatchLen(s) > k {
      LongestMatch(s, 0);
      TokenAlphabet(s[..MatchLen(s)], k);
    }
  }

  /** A character outside the token alphabet ends every match before it. */
  lemma MatchStopsAt(a: string, b: string, k: nat)
    requires k < |a| && !IsBody(a[k])
    ensures MatchLen(a + b) == MatchLen(a) <= k
  {
    var m, n := MatchLen(a + b), MatchLen(a);
    MatchWithin(a + b, k);
    MatchWithin(a, k);
    LongestMatch(a + b, n);
    LongestMatch(a, m);
    assert (a + b)[..m] == a[..m];
    assert a[..n] == (a + b)[..n];
  }

  /** Redaction splits after any character outside the token alphabet; a newline is one. */
  lemma {:induction false} SplitAfter(a: string, b: string)
    requires a == [] || !IsBody(a[|a| - 1])
    ensures Redact(a + b) == Redact(a) + Redact(b)
    decreases |a|
  {
    hide MatchLen, IsBody, MARK, Redact;
    if a == [] {
      assert a + b == b && Redact(a) == [] by { NothingShown(); }
    } else {
      MatchStopsAt(a, b, |a| - 1);
      MatchStopsAt(a, [], |a| - 1);
      var rest := a[Taken(a)..];
      SplitAfter(rest, b);
      FirstStep(a, b);
      FirstStep(a, []);
      assert a + [] == a && rest + [] == rest;
      Regroup(if MatchLen(a) > 0 then MARK else [a[0]], Redact(rest), Redact(b));
    }
  }

  lemma NothingShown()
    ensures Redact([]) == []
  {
  }

  /** The match at a token takes it and the body characters that follow. */
  lemma MatchAtToken(t: string, b: string)
    requires IsToken(t)
    ensures MatchLen(t + b) == |t| + BodyRun(b)
  {
    var s, m := t + b, |t| + BodyRun(b);
    BodyRunIsMaximal(b);
    TokenGoesOn(t, b, BodyRun(b));
    hide IsToken, IsBody, MatchLen, BodyRun;
    LongestMatch(s, m);
    if m < |s| {
      assert s[m] == b[BodyRun(b)];
      MatchWithin(s, m);
    }
  }

  /** A token at the front is replaced, together with any body characters that follow it. */
  lemma TokenFirst(t: string, b: string)
    requires IsToken(t)
    ensures Redact(t + b) == MARK + Redact(b[BodyRun(b)..])
  {
    MatchAtToken(t, b);
    hide MatchLen, MARK, BodyRun, IsHead;
    assert (t + b)[|t| + BodyRun(b)..] == b[BodyRun(b)..];
  }

  /** A token followed by body characters is a token. */
  lemma TokenGoesOn(t: string, b: string, n: nat)
    requires IsToken(t) && n <= |b| && forall i :: 0 <= i < n ==> IsBody(b[i])
    ensures IsToken((t + b)[..|t| + n])
  {
    var u := (t + b)[..|t| + n];
    assert u[..10] == t[..10];
    forall i | 13 <= i < |u| ensures IsBody(u[i]) {
      assert u[i] == if i < |t| then t[i] else b[i - |t|];
    }
  }

  /** No match begins in the twelve characters before a token, or where no head stands. */
  lemma NoMatchBefore(a: string, t: string, b: string)
    requires IsToken(t) && a != [] && !IsHead(a)
    ensures MatchLen(a + (t + b)) == 0
  {
    var s := a + (t + b);
    if |a| >= 13 {
      assert a[..10] == s[..10];
    } else {
      assert s[|a|] == t[0] == TOKEN_PREFIX[0];
      if |a| < 10 { assert s[|a|] != TOKEN_PREFIX[|a|]; }
    }
  }

  /** What is shown does not depend on which token stood in the text, wherever it stood. */
  lemma {:induction false} SecretIndependent(a: string, t1: string, t2: string, b: string)
    requires IsToken(t1) && IsToken(t2)
    ensures Redact(a + (t1 + b)) == Redact(a + (t2 + b))
    decreases |a|
  {
    hide MatchLen, IsToken, IsHead, IsBody, MARK, BodyRun, Redact;
    if a == [] {
      assert a + (t1 + b) == t1 + b && a + (t2 + b) == t2 + b;
      TokenFirst(t1, b);
      TokenFirst(t2, b);
    } else if k :| 0 <= k < |a| && !IsBody(a[k]) {
      MatchStopsAt(a, t1 + b, k);
      MatchStopsAt(a, t2 + b, k);
      SecretIndependent(a[Taken(a)..], t1, t2, b);
      SameFirst(a, t1 + b, t2 + b);
    } else if IsHead(a) {
      HeadThenToken(a, t1, b);
      HeadThenToken(a, t2, b);
    } else {
      NoMatchBefore(a, t1, b);
      NoMatchBefore(a, t2, b);
      SecretIndependent(a[1..], t1, t2, b);
      OneShown(a, t1 + b);
      OneShown(a, t2 + b);
    }
  }

  /** How much of a one step of the replacement takes. */
  function Taken(a: string): (n: nat)
    requires a != []
    ensures 0 < n <= |a|
  {
    if MatchLen(a) > 0 then MatchLen(a) else 1
  }

  lemma SameFirst(a: string, x: string, y: string)
    requires a != [] && MatchLen(a + x) == MatchLen(a) == MatchLen(a + y)
    requires Redact(a[Taken(a)..] + x) == Redact(a[Taken(a)..] + y)
    ensures Redact(a + x) == Redact(a + y)
  {
    FirstStep(a, x);
    FirstStep(a, y);
    hide Redact, MatchLen;
  }

  lemma FirstStep(a: string, x: string)
    requires a != [] && MatchLen(a + x) == MatchLen(a)
    ensures Redact(a + x) == (if MatchLen(a) > 0 then MARK else [a[0]]) + Redact(a[Taken(a)..] + x)
  {
    hide MatchLen, MARK;
    assert (a + x)[Taken(a)..] == a[Taken(a)..] + x;
  }

  lemma OneShown(a: string, x: string)
    requires a != [] && MatchLen(a + x) == 0
    ensures Redact(a + x) == [a[0]] + Redact(a[1..] + x)
  {
    hide MatchLen, MARK;
    assert (a + x)[1..] == a[1..] + x;
  }

  /** Body characters that begin with a head, and then a token, are one token. */
  lemma HeadThenToken(a: string, t: string, b: string)
    requires IsHead(a) && IsToken(t) && forall k :: 0 <= k < |a| ==> IsBody(a[k])
    ensures Redact(a + (t + b)) == MARK + Redact(b[BodyRun(b)..])
  {
    var u := a + t;
    assert u[..10] == a[..10];
    forall i | 13 <= i < |u| ensures IsBody(u[i]) {
      if i >= |a| { TokenAlphabet(t, i - |a|); }
    }
    assert IsToken(u);
    hide IsToken, IsHead, IsBody, Redact, BodyRun, MARK;
    assert a + (t + b) == u + b;
    TokenFirst(u, b);
  }

  /** A token that touches no other token character is shown as exactly one marker. */
  lemma TokenAlone(a: string, t: string, b: string)
    requires IsToken(t) && (a == [] || !IsBody(a[|a| - 1])) && (b == [] || !IsBody(b[0]))
    ensures Redact(a + (t + b)) == Redact(a) + ("[token redacted]" + Redact(b))
  {
    assert BodyRun(b) == 0;
    hide Redact, IsToken, IsBody, BodyRun, MARK;
    SplitAfter(a, t + b);
    TokenFirst(t, b);
  }

  // ------------------------------------------------------- possible starts

  /** The test of `tokenStart` at one position: rest begins like a token, or would once more
      text arrives. */
  predicate CouldStart(rest: string) {
    TOKEN_PREFIX <= rest || rest <= TOKEN_PREFIX
  }

  /** The two-way test is exactly "some continuation begins with the token prefix". */
  lemma CouldStartMeans(rest: string)
    ensures CouldStart(rest) <==> exists more: string :: TOKEN_PREFIX <= rest + more
  {
    if CouldStart(rest) {
      var more := if rest <= TOKEN_PREFIX then TOKEN_PREFIX[|rest|..] else [];
      assert TOKEN_PREFIX <= rest + more;
    }
  }

  /** Once judged not a start, a position stays so whatever text is appended. */
  lemma NotAStartStays(rest: string, more: string)
    requires !CouldStart(rest)
    ensures !CouldStart(rest + more) && MatchLen(rest + more) == 0
  {
    if |rest| >= 10 {
      assert (rest + more)[..10] == rest[..10];
    } else {
      assert (rest + more)[..|rest|] == rest;
    }
    assert MatchLen(rest + more) > 0 ==> TOKEN_PREFIX <= rest + more;
  }

  /** The first position of s a token starts at or could start at, |s| when there is none. */
  function TokenStart(s: string): (i: nat)
    ensures i <= |s|
    ensures forall k :: 0 <= k < i ==> !CouldStart(s[k..])
    ensures i < |s| ==> CouldStart(s[i..])
  {
    if s == [] || CouldStart(s) then 0
    else
      assert forall k :: 1 <= k <= |s| ==> s[k..] == s[1..][k - 1..];
      1 + TokenStart(s[1..])
  }

  /** The contract of TokenStart has one solution. */
  lemma TokenStartUnique(s: string, i: nat)
    requires i <= |s| && (forall k :: 0 <= k < i ==> !CouldStart(s[k..])) && (i < |s| ==> CouldStart(s[i..]))
    ensures i == TokenStart(s)
  {
  }

  /** The text before the first possible start is shown unchanged, whatever follows. */
  lemma SafeText(s: string, more: string)
    ensures Redact(s + more) == s[..TokenStart(s)] + Redact(s[TokenStart(s)..] + more)
  {
    hide CouldStart, MatchLen, Redact;
    var i := TokenStart(s);
    forall k | 0 <= k < i ensures MatchLen((s + more)[k..]) == 0 {
      assert (s + more)[k..] == s[k..] + more;
      NotAStartStays(s[k..], more);
    }
    LeftmostLongest(s + more, i);
    assert (s + more)[i..] == s[i..] + more;
    assert (s + more)[..i] == s[..i];
  }

  /** The first possible start of a longer text, seen from the text already held back. */
  lemma {:induction false} TokenStartAppend(s: string, more: string)
    ensures TokenStart(s + more) == TokenStart(s) + TokenStart(s[TokenStart(s)..] + more)
  {
    hide CouldStart;
    if s == [] || CouldStart(s) {
      assert s[0..] == s;
    } else {
      NotAStartStays(s, more);
      var next := s[1..] + more;
      assert (s + more)[1..] == next;
      assert TokenStart(s + more) == 1 + TokenStart(next);
      TokenStartAppend(s[1..], more);
      assert s[1..][TokenStart(s[1..])..] == s[TokenStart(s)..];
    }
  }

  // ---------------------------------------------- the writer's abstract state

  /** Index just after the last newline of s, 0 when it has none. */
  function LineBreak(s: string): (c: nat)
    ensures c <= |s|
    ensures c > 0 ==> s[c - 1] == '\n'
    ensures '\n' !in s[c..]
  {
    if s == [] then 0
    else if s[|s| - 1] == '\n' then |s|
    else
      assert s[LineBreak(s[..|s| - 1])..] == s[..|s| - 1][LineBreak(s[..|s| - 1])..] + [s[|s| - 1]];
      LineBreak(s[..|s| - 1])
  }

  lemma LineBreakUnique(s: string, c: nat)
    requires c <= |s| && (c > 0 ==> s[c - 1] == '\n') && '\n' !in s[c..]
    ensures c == LineBreak(s)
  {
    var d := LineBreak(s);
    assert forall k :: c <= k < |s| ==> s[k] in s[c..];
    assert forall k :: d <= k < |s| ==> s[k] in s[d..];
  }

  /** All complete lines redacted, then the current line up to its first possible token. */
  function Forwarded(total: string): string {
    var c := LineBreak(total);
    Redact(total[..c]) + total[c..][..TokenStart(total[c..])]
  }

  /** The current line from its first possible token on. */
  function Held(total: string): string {
    var c := LineBreak(total);
    total[c..][TokenStart(total[c..])..]
  }

  /** Whatever arrives next, the text already forwarded is what the whole-text redaction
      begins with, and the rest of it is the redaction of the text held plus the new text. */
  lemma Settled(total: string, more: string)
    ensures Redact(total + more) == Forwarded(total) + Redact(Held(total) + more)
  {
    hide Redact, TokenStart, LineBreak, IsBody, CouldStart;
    var c := LineBreak(total);
    var line := total[c..];
    assert total + more == total[..c] + (line + more);
    NewlineIsNoBody();
    SplitAfter(total[..c], line + more);
    SafeText(line, more);
    Regroup(Redact(total[..c]), line[..TokenStart(line)], Redact(Held(total) + more));
  }

  lemma NewlineIsNoBody()
    ensures !IsBody('\n')
  {
  }

  /** A newline releases everything. */
  lemma NewlineReleases(total: string, more: string)
    requires more != [] && more[|more| - 1] == '\n'
    ensures Held(total + more) == []
    ensures Forwarded(total + more) == Forwarded(total) + Redact(Held(total) + more)
  {
    hide Redact, CouldStart, LineBreak;
    var t := total + more;
    LineBreakUnique(t, |t|);
    assert t[..|t|] == t;
    Settled(total, more);
  }

  /** Text without a newline is released up to the first possible start. */
  lemma PartialReleases(total: string, more: string)
    requires '\n' !in more
    ensures var pending := Held(total) + more;
            Forwarded(total + more) == Forwarded(total) + pending[..TokenStart(pending)]
            && Held(total + more) == pending[TokenStart(pending)..]
  {
    hide CouldStart, Redact, LineBreak, TokenStart;
    var c, t := LineBreak(total), total + more;
    var cur := total[c..];
    assert t[c..] == cur + more && t[..c] == total[..c];
    LineBreakUnique(t, c);
    TokenStartAppend(cur, more);
    ReleaseSplits(cur, more, TokenStart(cur), TokenStart(Held(total) + more));
  }

  lemma ReleaseSplits(cur: string, more: string, i: nat, j: nat)
    requires i <= |cur| && j <= |cur[i..] + more|
    ensures (cur + more)[..i + j] == cur[..i] + (cur[i..] + more)[..j]
    ensures (cur + more)[i + j..] == (cur[i..] + more)[j..]
  {
    assert cur + more == cur[..i] + (cur[i..] + more);
  }

  /** At any moment, what has been forwarded holds no token. */
  lemma ForwardedIsTokenFree(total: string)
    ensures TokenFree(Forwarded(total))
  {
    Settled(total, []);
    RedactionIsTokenFree(total);
    hide IsToken, Forwarded, Held, Redact;
    var f, whole := Forwarded(total), Redact(total);
    assert total + [] == total;
    assert forall i, j :: 0 <= i <= j <= |f| ==> f[i..j] == whole[i..j];
  }

  // ------------------------------------------------- when holding back is needed

  const SHORTEST_TOKEN := TOKEN_PREFIX + "00-aaaaaaaaaaaaaaaaaaaa"

  /** The character c can stand at place i < 33 of a token. */
  predicate CanStandAt(c: char, i: nat) {
    if i < 10 then c == TOKEN_PREFIX[i] else if i < 12 then IsDigit(c) else if i == 12 then c == '-' else IsBody(c)
  }

  /** No character of h rules out that a token begins here. */
  predicate CanBecome(h: string) { forall i :: 0 <= i < |h| && i < 33 ==> CanStandAt(h[i], i) }

  /** h can become a token exactly when some continuation of it begins with one. */
  lemma CanBecomeMeans(h: string, more: string)
    ensures MatchLen(h + more) > 0 ==> CanBecome(h)
    ensures CanBecome(h) ==> MatchLen(h + (if |h| < 33 then SHORTEST_TOKEN[|h|..] else "")) > 0
  {
    if MatchLen(h + more) > 0 {
      LongestMatch(h + more, 0);
      hide MatchLen, IsToken;
      TokenPlaces((h + more)[..MatchLen(h + more)], h);
    }
    if CanBecome(h) {
      var s := h + (if |h| < 33 then SHORTEST_TOKEN[|h|..] else "");
      forall i | 0 <= i < 33 ensures CanStandAt(s[i], i) {
        if i < |h| { assert s[i] == h[i]; } else { assert s[i] == SHORTEST_TOKEN[i]; }
      }
      hide MatchLen;
      PlacesMakeToken(s[..33]);
      LongestMatch(s, 33);
    }
  }

  lemma TokenPlaces(t: string, h: string)
    requires IsToken(t) && (t <= h || h <= t)
    ensures CanBecome(h)
  {
    forall i | 0 <= i < |h| && i < 33 ensures CanStandAt(h[i], i) {
      assert h[i] == t[i];
    }
  }

  lemma PlacesMakeToken(t: string)
    requires |t| == 33 && CanBecome(t)
    ensures IsToken(t)
  {
    assert forall i :: 0 <= i < 33 ==> CanStandAt(t[i], i);
    assert t[..10] == TOKEN_PREFIX;
  }

  /** One more character of the text held would be wrong after some continuation. */
  ghost predicate MustHold(total: string)
    requires Held(total) != []
  {
    exists more :: !(Forwarded(total) + [Held(total)[0]] <= Redact(total + more))
  }

  /** Holding back is needed exactly while the text held can still become a token. */
  lemma HoldingBackIsNeededIff(total: string)
    requires Held(total) != []
    ensures MustHold(total) <==> CanBecome(Held(total))
  {
    var held := Held(total);
    hide Held, Forwarded, CanBecome, MatchLen;
    forall more ensures Forwarded(total) + [held[0]] <= Redact(total + more) || CanBecome(held) {
      Settled(total, more);
      CanBecomeMeans(held, more);
      assert (held + more)[0] == held[0];
    }
    if CanBecome(held) {
      var more := if |held| < 33 then SHORTEST_TOKEN[|held|..] else "";
      CanBecomeMeans(held, more);
      Settled(total, more);
      BeginsWithS(held);
      assert Redact(total + more)[|Forwarded(total)|] == MARK[0];
    }
  }

  lemma BeginsWithS(held: string)
    requires held != [] && CanBecome(held)
    ensures held[0] == 's'
  {
    assert CanStandAt(held[0], 0);
  }

  /** A text that is held although nothing can make it a token. */
  lemma HeldInVain()
    ensures Held("sk-ant-oatX") == "sk-ant-oatX" && Forwarded("sk-ant-oatX") == ""
    ensures !MustHold("sk-ant-oatX")
  {
    var total := "sk-ant-oatX";
    LineBreakUnique(total, 0);
    assert total[0..] == total && total[..0] == "";
    assert TOKEN_PREFIX <= total && TokenStart(total) == 0;
    assert !CanStandAt(total[10], 10);
    HoldingBackIsNeededIff(total);
  }

  // --------------------------------------------------------- the writer

  /** The scanning loop of `tokenStart`. */
  method ScanTokenStart(s: string) returns (i: nat)
    ensures i == TokenStart(s)
  {
    i := 0;
    while i < |s| && !CouldStart(s[i..])
      invariant i <= |s| && forall k :: 0 <= k < i ==> !CouldStart(s[k..])
    {
      i := i + 1;
    }
    TokenStartUnique(s, i);
  }

  /** `line` is the pending text, `out` all the text the underlying writer was given. */
  class RedactWriter {
    var line: string
    var out: string
    ghost var received: string

    ghost predicate Valid()
      reads this
    {
      out == Forwarded(received) && line == Held(received)
    }

    constructor ()
      ensures Valid() && received == [] && out == []
    {
      line, out, received := [], [], [];
    }

    /** The state after a write depends only on the text received so far. */
    method Write(p: string) returns (n: nat)
      requires Valid()
      modifies this
      ensures Valid() && received == old(received) + p && n == |p|
      ensures TokenFree(out) && old(out) <= out
    {
      hide Forwarded, Held, TokenStart, CouldStart, Redact, TokenFree;
      n := |p|;
      var rest := p;
      var more := true;
      while more
        invariant Valid() && received + rest == old(received) + p
        invariant old(out) <= out
        invariant !more ==> rest == []
        decreases more, |rest|
      {
        var i := IndexNewline(rest);
        if i == |rest| {
          assert rest[..i] == rest;
          PartialReleases(received, rest);
          line := line + rest;
          received := received + rest;
          EmitSafe();
          rest, more := [], false;
        } else {
          NewlineReleases(received, rest[..i + 1]);
          assert received + rest == received + rest[..i + 1] + rest[i + 1..];
          line := line + rest[..i + 1];
          received := received + rest[..i + 1];
          Emit();
          rest := rest[i + 1..];
        }
      }
      ForwardedIsTokenFree(received);
    }

    /** After the final flush everything received has been shown, redacted. */
    method Flush()
      requires Valid()
      modifies this`line, this`out
      ensures out == Redact(received) && line == [] && TokenFree(out)
    {
      Settled(received, []);
      assert Held(received) + [] == Held(received) && received + [] == received;
      RedactionIsTokenFree(received);
      if |line| == 0 {
        return;
      }
      Emit();
    }

    method EmitSafe()
      modifies this`line, this`out
      ensures out == old(out) + old(line)[..TokenStart(old(line))]
      ensures line == old(line)[TokenStart(old(line))..]
    {
      var safe := ScanTokenStart(line);
      if safe == 0 {
        return;
      }
      out := out + line[..safe];
      line := line[safe..];
    }

    method Emit()
      modifies this`line, this`out
      ensures out == old(out) + Redact(old(line)) && line == []
    {
      out := out + Redact(line);
      line := [];
    }
  }

  /** A whole captured flow: any sequence of writes, then the flush. */
  method Echo(chunks: seq<string>) returns (shown: string)
    ensures shown == Redact(Concat(chunks)) && TokenFree(shown)
  {
    var w := new RedactWriter();
    for k := 0 to |chunks|
      invariant w.Valid() && w.received == Concat(chunks[..k]) && fresh(w)
    {
      var _ := w.Write(chunks[k]);
      assert chunks[..k + 1][..k] == chunks[..k];
    }
    assert chunks[..|chunks|] == chunks;
    w.Flush();
    shown := w.out;
  }
}
