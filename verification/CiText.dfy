/** Parameter references in CircleCI config text, after internal/ciconfig/ciconfig.go. */
module CiText {

  type Args = map<string, string>

  // ------------------------------------------------------------ the patterns

  /** `\s` of a regular expression. */
  predicate IsBlank(c: char) { c == ' ' || c == '\t' || c == '\n' || c == '\r' || c == '\U{000C}' }

  predicate IsLower(c: char) { 'a' <= c <= 'z' }

  predicate IsNameChar(c: char) {
    'A' <= c <= 'Z' || 'a' <= c <= 'z' || '0' <= c <= '9' || c == '_' || c == '-'
  }

  /** How many characters satisfying p the text begins with. */
  function RunOf(p: char -> bool, s: string): (n: nat)
    ensures n <= |s|
    ensures forall i :: 0 <= i < n ==> p(s[i])
    ensures n < |s| ==> !p(s[n])
  {
    if s != [] && p(s[0]) then 1 + RunOf(p, s[1..]) else 0
  }

  const OPEN := "<<"
  const CLOSE := ">>"
  const PARAMETERS := "parameters."

  /** A parameter reference at the beginning of a text: its name and its length. */
  datatype Ref = NoRef | Ref(name: string, len: nat)

  /** `paramRef` at the beginning of s. */
  function RefAt(s: string): (r: Ref)
    ensures r.Ref? ==> 0 < r.len <= |s| && OPEN <= s
  {
    RefTo(PARAMETERS, s)
  }

  /** A reference to what `word` stands for. The classes the pattern alternates are disjoint, so
      the greedy reading is the only one. */
  function RefTo(word: string, s: string): (r: Ref)
    ensures r.Ref? ==> 0 < r.len <= |s| && OPEN <= s
  {
    if !(OPEN <= s) then NoRef else
      var i := 2 + RunOf(IsBlank, s[2..]);
      if !(word <= s[i..]) then NoRef else
        RefTail(s[i + |word|..], i + |word|)
  }

  /** The rest of a reference, `before` characters into it: the name and what closes it. */
  function RefTail(u: string, before: nat): (r: Ref)
    ensures r.Ref? ==> before < r.len <= before + |u|
  {
    var n := RunOf(IsNameChar, u);
    var b := RunOf(IsBlank, u[n..]);
    if 0 < n && CLOSE <= u[n + b..] then Ref(u[..n], before + n + b + 2) else NoRef
  }

  /** `unresolvedRef` at the beginning of s. */
  predicate InterpolationAt(s: string) {
    OPEN <= s &&
    var i := 2 + RunOf(IsBlank, s[2..]);
    var j := i + RunOf(IsLower, s[i..]);
    i < j < |s| && s[j] == '.'
  }

  lemma InterpolationIntro(s: string, i: nat, j: nat)
    requires 2 <= i < j < |s| && s[0] == '<' && s[1] == '<' && s[j] == '.'
    requires i == 2 + RunOf(IsBlank, s[2..]) && j == i + RunOf(IsLower, s[i..])
    ensures InterpolationAt(s)
  {
  }

  lemma InterpolationParts(s: string) returns (i: nat, j: nat)
    requires InterpolationAt(s)
    ensures 2 <= i < j < |s| && s[0] == '<' && s[1] == '<' && s[j] == '.'
    ensures i == 2 + RunOf(IsBlank, s[2..]) && j == i + RunOf(IsLower, s[i..])
  {
    i := 2 + RunOf(IsBlank, s[2..]);
    j := i + RunOf(IsLower, s[i..]);
    assert s[0] == OPEN[0] && s[1] == OPEN[1];
  }

  /** `unresolvedRef.MatchString(s)`. */
  predicate Unresolved(s: string) {
    exists i :: 0 <= i <= |s| && InterpolationAt(s[i..])
  }

  // -------------------------------------------------------------- substitution

  /** Every reference replaced in one left-to-right pass; unknown names stay as they are. */
  function ReplaceRefs(s: string, args: Args): string
    decreases |s|
  {
    if s == [] then []
    else
      var r := RefAt(s);
      if r.NoRef? then [s[0]] + ReplaceRefs(s[1..], args)
      else (if r.name in args then args[r.name] else s[..r.len]) + ReplaceRefs(s[r.len..], args)
  }

  /** The names a text refers to. */
  function Names(s: string): set<string>
    decreases |s|
  {
    if s == [] then {}
    else
      var r := RefAt(s);
      if r.NoRef? then Names(s[1..]) else {r.name} + Names(s[r.len..])
  }

  predicate HasOpen(s: string) {
    exists i :: 0 <= i < |s| - 1 && s[i] == '<' && s[i + 1] == '<'
  }

  /** `substitute`, with its short cut. */
  function Substitute(s: string, args: Args): string {
    if |args| == 0 || !HasOpen(s) then s else ReplaceRefs(s, args)
  }

  function SubstituteAll(params: Args, args: Args): Args {
    if |params| == 0 || |args| == 0 then params
    else map name | name in params :: Substitute(params[name], args)
  }

  /** The short cut changes nothing. */
  lemma {:induction false} ShortCut(s: string, args: Args)
    requires |args| == 0 || !HasOpen(s)
    ensures ReplaceRefs(s, args) == s
    decreases |s|
  {
    hide RefAt;
    if s != [] {
      var r := RefAt(s);
      if r.NoRef? {
        assert forall i :: 0 <= i < |s| - 1 ==> s[1..][i] == s[i + 1];
        ShortCut(s[1..], args);
      } else {
        assert s[0] == OPEN[0] && s[1] == OPEN[1];
        ShortCut(s[r.len..], args);
      }
    }
  }

  lemma SubstituteIsReplace(s: string, args: Args)
    ensures Substitute(s, args) == ReplaceRefs(s, args)
  {
    if |args| == 0 || !HasOpen(s) { ShortCut(s, args); }
  }

  ghost predicate Agree(a: Args, b: Args, names: set<string>) {
    forall n :: n in names ==> (n in a <==> n in b) && (n in a ==> a[n] == b[n])
  }

  /** Only the names a text refers to matter. */
  lemma {:induction false} ReplaceAgrees(s: string, a: Args, b: Args)
    requires Agree(a, b, Names(s))
    ensures ReplaceRefs(s, a) == ReplaceRefs(s, b)
    decreases |s|
  {
    hide RefAt;
    if s != [] {
      var r := RefAt(s);
      ReplaceAgrees(if r.NoRef? then s[1..] else s[r.len..], a, b);
    }
  }

  lemma SubstituteAgrees(s: string, a: Args, b: Args)
    requires Agree(a, b, Names(s))
    ensures Substitute(s, a) == Substitute(s, b)
  {
    ReplaceAgrees(s, a, b);
    SubstituteIsReplace(s, a);
    SubstituteIsReplace(s, b);
  }

  /** A value that is one whole reference forwards the caller's argument, once: the argument
      itself is not searched for references. */
  lemma Forwarding(s: string, args: Args)
    requires RefAt(s).Ref? && RefAt(s).len == |s| && RefAt(s).name in args
    ensures Substitute(s, args) == args[RefAt(s).name]
  {
    hide RefAt;
    SubstituteIsReplace(s, args);
    assert ReplaceRefs(s[RefAt(s).len..], args) == [];
  }

  /** Substitution is one pass: the leftmost reference is replaced by its argument, or stays, and
      reading goes on after it, so nothing inserted is ever searched. */
  lemma OnePass(s: string, args: Args, i: nat)
    requires i < |s| && RefAt(s[i..]).Ref? && forall k :: 0 <= k < i ==> RefAt(s[k..]).NoRef?
    ensures var r := RefAt(s[i..]);
            ReplaceRefs(s, args) ==
              s[..i] + ((if r.name in args then args[r.name] else s[i..i + r.len]) + ReplaceRefs(s[i + r.len..], args))
  {
    hide RefAt;
    PlainBefore(s, args, i);
    var r := RefAt(s[i..]);
    assert s[i..][r.len..] == s[i + r.len..] && s[i..][..r.len] == s[i..i + r.len];
  }

  lemma {:induction false} PlainBefore(s: string, args: Args, i: nat)
    requires i <= |s| && forall k :: 0 <= k < i ==> RefAt(s[k..]).NoRef?
    ensures ReplaceRefs(s, args) == s[..i] + ReplaceRefs(s[i..], args)
    decreases i
  {
    hide RefAt, ReplaceRefs;
    assert s[0..] == s;
    if i > 0 {
      PlainFirst(s, args);
      assert forall k :: 0 <= k < i - 1 ==> s[1..][k..] == s[k + 1..];
      PlainBefore(s[1..], args, i - 1);
      assert s[1..][i - 1..] == s[i..];
      FirstThenRest(s, i, ReplaceRefs(s[i..], args));
    }
  }

  lemma FirstThenRest(s: string, i: nat, t: string)
    requires 0 < i <= |s|
    ensures [s[0]] + (s[1..][..i - 1] + t) == s[..i] + t
  {
  }

  lemma PlainFirst(s: string, args: Args)
    requires s != "" && RefAt(s).NoRef?
    ensures ReplaceRefs(s, args) == [s[0]] + ReplaceRefs(s[1..], args)
  {
  }

  // ------------------------------------------------- unbound references

  lemma ParametersWord(t: string)
    requires PARAMETERS <= t
    ensures RunOf(IsLower, t) == 10 && t[10] == '.'
  {
    var n := RunOf(IsLower, t);
    assert forall k :: 0 <= k < 11 ==> t[k] == PARAMETERS[k];
    assert forall k :: 0 <= k < 10 ==> IsLower(PARAMETERS[k]);
    assert !IsLower(t[10]);
  }

  /** `unresolvedRef` is wider than `paramRef`. */
  lemma RefIsInterpolation(s: string)
    requires RefAt(s).Ref?
    ensures InterpolationAt(s)
  {
    ParametersWord(s[2 + RunOf(IsBlank, s[2..])..]);
    hide PARAMETERS;
  }

  lemma {:induction false} RunKept(p: char -> bool, s: string, more: string)
    requires RunOf(p, s) < |s|
    ensures RunOf(p, s + more) == RunOf(p, s)
  {
    if p(s[0]) {
      RunKept(p, s[1..], more);
      assert (s + more)[1..] == s[1..] + more;
    }
  }

  lemma InterpolationGrows(s: string, more: string)
    requires InterpolationAt(s)
    ensures InterpolationAt(s + more)
  {
    hide InterpolationAt, RunOf;
    var t := s + more;
    var i, j := InterpolationParts(s);
    RunKept(IsBlank, s[2..], more);
    RunKept(IsLower, s[i..], more);
    assert t[2..] == s[2..] + more && t[i..] == s[i..] + more;
    InterpolationIntro(t, i, j);
  }

  /** The text of a reference alone already holds the interpolation. */
  lemma UnboundHere(s: string)
    requires RefAt(s).Ref?
    ensures InterpolationAt(s[..RefAt(s).len])
  {
    hide RefTo;
    var i, u, n, b := RefInto(PARAMETERS, s);
    var t, more := s[..RefAt(s).len], s[RefAt(s).len..];
    ParametersFirst(s, t, more, i);
    ParametersWord(t[i..]);
    hide PARAMETERS;
  }

  lemma ParametersFirst(s: string, t: string, more: string, i: nat)
    requires s == t + more && OPEN <= s && i == 2 + RunOf(IsBlank, s[2..])
    requires i + 11 < |t| && PARAMETERS <= s[i..]
    ensures i == 2 + RunOf(IsBlank, t[2..]) && PARAMETERS <= t[i..]
  {
    hide RunOf;
    assert s[i..][..11] == t[i..][..11];
    assert t[2..][i - 2] == t[i..][0] == PARAMETERS[0];
    assert forall k :: 0 <= k < i - 2 ==> t[2..][k] == s[2..][k];
    RunIs(IsBlank, t[2..], i - 2);
  }

  lemma UnresolvedAround(a: string, s: string, b: string)
    requires Unresolved(s)
    ensures Unresolved(a + s + b)
  {
    hide InterpolationAt;
    var i :| 0 <= i <= |s| && InterpolationAt(s[i..]);
    InterpolationGrows(s[i..], b);
    assert (a + s + b)[|a| + i..] == s[i..] + b;
  }

  /** A reference to a name nobody bound leaves an interpolation behind. */
  lemma {:induction false} UnboundIsUnresolved(s: string, args: Args, name: string)
    requires name in Names(s) && name !in args
    ensures Unresolved(Substitute(s, args))
    decreases |s|
  {
    SubstituteIsReplace(s, args);
    UnboundStays(s, args, name);
  }

  lemma {:induction false} UnboundStays(s: string, args: Args, name: string)
    requires name in Names(s) && name !in args
    ensures Unresolved(ReplaceRefs(s, args))
    decreases |s|
  {
    hide RefAt, InterpolationAt;
    var r := RefAt(s);
    if r.Ref? && r.name == name {
      var here, rest := s[..r.len], ReplaceRefs(s[r.len..], args);
      UnboundHere(s);
      assert here[0..] == here;
      UnresolvedAround([], here, rest);
      assert [] + here + rest == here + rest;
    } else {
      var rest := if r.NoRef? then s[1..] else s[r.len..];
      UnboundStays(rest, args, name);
      var before := if r.NoRef? then [s[0]] else if r.name in args then args[r.name] else s[..r.len];
      UnresolvedAround(before, ReplaceRefs(rest, args), []);
      assert before + ReplaceRefs(rest, args) + [] == ReplaceRefs(s, args);
    }
  }

  // ------------------------------------------------------------- trimming

  /** `unicode.IsSpace`. */
  predicate IsSpace(c: char) {
    '\t' <= c <= '\r' || c == ' ' || c == '\U{0085}' || c == '\U{00A0}' || c == '\U{1680}'
    || '\U{2000}' <= c <= '\U{200A}' || c == '\U{2028}' || c == '\U{2029}' || c == '\U{202F}'
    || c == '\U{205F}' || c == '\U{3000}'
  }

  function TrimLeft(s: string): string {
    if s != [] && IsSpace(s[0]) then TrimLeft(s[1..]) else s
  }

  function TrimRight(s: string): string {
    if s != [] && IsSpace(s[|s| - 1]) then TrimRight(s[..|s| - 1]) else s
  }

  function TrimSpace(s: string): string { TrimRight(TrimLeft(s)) }

  /** Trimming cuts no interpolation: it begins with '<' and ends with '.'. */
  lemma {:induction false} TrimKeepsUnresolved(s: string)
    requires Unresolved(s)
    ensures Unresolved(TrimSpace(s))
  {
    TrimLeftKeeps(s);
    TrimRightKeeps(TrimLeft(s));
  }

  lemma {:induction false} TrimLeftKeeps(s: string)
    requires Unresolved(s)
    ensures Unresolved(TrimLeft(s))
  {
    hide InterpolationAt;
    if s != [] && IsSpace(s[0]) {
      var i :| 0 <= i <= |s| && InterpolationAt(s[i..]);
      StartsOpen(s[i..]);
      assert s[1..][i - 1..] == s[i..];
      TrimLeftKeeps(s[1..]);
    }
  }

  lemma {:induction false} TrimRightKeeps(s: string)
    requires Unresolved(s)
    ensures Unresolved(TrimRight(s))
  {
    hide InterpolationAt;
    if s != [] && IsSpace(s[|s| - 1]) {
      var i :| 0 <= i <= |s| && InterpolationAt(s[i..]);
      StartsOpen(s[i..]);
      EndsInside(s[i..]);
      assert s[i..][..|s[i..]| - 1] == s[..|s| - 1][i..];
      TrimRightKeeps(s[..|s| - 1]);
    }
  }

  lemma StartsOpen(s: string)
    requires InterpolationAt(s)
    ensures |s| > 0 && !IsSpace(s[0])
  {
    assert s[0] == OPEN[0];
  }

  /** An interpolation ends at its '.'. */
  lemma EndsInside(s: string)
    requires InterpolationAt(s) && s[|s| - 1] != '.'
    ensures InterpolationAt(s[..|s| - 1])
  {
    hide InterpolationAt, RunOf;
    var i, j := InterpolationParts(s);
    var t := s[..|s| - 1];
    ShorterRun(IsBlank, s[2..], i - 2);
    ShorterRun(IsLower, s[i..], j - i);
    assert s[2..][..|s[2..]| - 1] == t[2..] && s[i..][..|s[i..]| - 1] == t[i..];
    InterpolationIntro(t, i, j);
  }

  /** An interpolation in a text that goes on with a NUL stands before it. */
  lemma UnresolvedBeforeNul(a: string)
    requires Unresolved(a + "\0x")
    ensures Unresolved(a)
  {
    hide InterpolationAt;
    var s := a + "\0x";
    var i :| 0 <= i <= |s| && InterpolationAt(s[i..]);
    NotInNulX(s[i..]);
    var t := a[i..];
    assert s[i..] == t + "\0x";
    EndsInside(t + "\0x");
    assert (t + "\0x")[..|t| + 1] == t + "\0";
    EndsInside(t + "\0");
    assert (t + "\0")[..|t|] == t;
  }

  lemma NotInNulX(s: string)
    requires InterpolationAt(s)
    ensures |s| > 2 && s[0] == '<'
  {
    var i, j := InterpolationParts(s);
  }

  lemma RunIs(p: char -> bool, s: string, n: nat)
    requires n < |s| && !p(s[n]) && forall i :: 0 <= i < n ==> p(s[i])
    ensures RunOf(p, s) == n
  {
    hide RunOf;
  }

  lemma ShorterRun(p: char -> bool, s: string, n: nat)
    requires n == RunOf(p, s) < |s| - 1
    ensures RunOf(p, s[..|s| - 1]) == n
  {
    hide RunOf;
    var t := s[..|s| - 1];
    assert forall i :: 0 <= i <= n ==> t[i] == s[i];
    RunIs(p, t, n);
  }

  // ------------------------------------------------------------- booleans

  datatype Truth = Unknown | Known(value: bool)

  function ToLower(s: string): string {
    if s == [] then []
    else [if 'A' <= s[0] <= 'Z' then (s[0] as int + 32) as char else s[0]] + ToLower(s[1..])
  }

  function BoolValue(s: string): Truth {
    var t := ToLower(TrimSpace(s));
    if t == "true" || t == "yes" || t == "on" || t == "1" then Known(true)
    else if t == "false" || t == "no" || t == "off" || t == "0" then Known(false)
    else Unknown
  }

  // ----------------------------------------------- what the patterns match

  /** A text that begins with a reference. */
  function Reference(before: string, word: string, name: string, after: string, rest: string): string {
    "<<" + (before + (word + (name + (after + (">>" + rest)))))
  }

  ghost predicate AllBlank(s: string) { forall c :: c in s ==> c in {' ', '\t', '\n', '\r', '\U{000C}'} }

  ghost predicate IsParameterName(s: string) {
    s != "" && forall c :: c in s ==> 'A' <= c <= 'Z' || 'a' <= c <= 'z' || '0' <= c <= '9' || c in {'_', '-'}
  }

  /** A text begins with a reference exactly when it begins with "<<", blanks, the word, a name,
      blanks and ">>". */
  lemma ReferenceIs(before: string, word: string, name: string, after: string, rest: string)
    requires AllBlank(before) && AllBlank(after) && IsParameterName(name) && word != "" && !IsBlank(word[0])
    ensures var s := Reference(before, word, name, after, rest); RefTo(word, s) == Ref(name, |s| - |rest|)
  {
    var u := name + (after + (">>" + rest));
    hide RefTo, RefTail, RunOf, AllBlank, IsParameterName, Reference, IsBlank;
    ReferenceLength(before, word, name, after, rest);
    HeadIs(before, word, u);
    TailIs(name, after, rest);
    TailFrom(u, |name|, |after|, 2 + |before| + |word|);
    RefFrom(word, "<<" + (before + (word + u)), 2 + |before|, u);
  }

  lemma ReferenceLength(before: string, word: string, name: string, after: string, rest: string)
    ensures var s := Reference(before, word, name, after, rest);
            && s == "<<" + (before + (word + (name + (after + (">>" + rest)))))
            && |s| == 4 + |before| + |word| + |name| + |after| + |rest|
  {
  }

  lemma Skip(s: string, i: nat, t: string, u: string)
    requires i <= |s| && s[i..] == t + u
    ensures i + |t| <= |s| && s[i + |t|..] == u && t <= s[i..]
  {
    assert s[i..][|t|..] == u;
  }

  lemma HeadIs(before: string, word: string, u: string)
    requires AllBlank(before) && word != "" && !IsBlank(word[0])
    ensures var s, i := "<<" + (before + (word + u)), 2 + |before|;
            i == 2 + RunOf(IsBlank, s[2..]) && word <= s[i..] && s[i + |word|..] == u
  {
    var t := word + u;
    assert t[0] == word[0];
    RunStops(IsBlank, before, t);
    hide RunOf, AllBlank;
    var s := "<<" + (before + t);
    assert s[0..] == s;
    Skip(s, 0, "<<", before + t);
    Skip(s, 2, before, t);
    Skip(s, 2 + |before|, word, u);
  }

  lemma TailIs(name: string, after: string, rest: string)
    requires AllBlank(after) && IsParameterName(name)
    ensures var u, n := name + (after + (">>" + rest)), |name|;
            && 0 < n == RunOf(IsNameChar, u) && u[..n] == name
            && |after| == RunOf(IsBlank, u[n..]) && ">>" <= u[n + |after|..]
  {
    var w := after + (">>" + rest);
    assert w[0] == if after == "" then '>' else after[0];
    assert after != "" ==> after[0] in after;
    RunStops(IsNameChar, name, w);
    RunStops(IsBlank, after, ">>" + rest);
    hide RunOf, AllBlank, IsParameterName;
    var u := name + w;
    assert u[0..] == u;
    Skip(u, 0, name, w);
    Skip(u, |name|, after, ">>" + rest);
  }

  lemma RefFrom(word: string, s: string, i: nat, u: string)
    requires OPEN <= s && i == 2 + RunOf(IsBlank, s[2..]) && word <= s[i..] && s[i + |word|..] == u
    ensures RefTo(word, s) == RefTail(u, i + |word|)
  {
    hide RunOf, RefTail, OPEN;
  }

  lemma TailFrom(u: string, n: nat, b: nat, before: nat)
    requires 0 < n == RunOf(IsNameChar, u) && b == RunOf(IsBlank, u[n..]) && CLOSE <= u[n + b..]
    ensures RefTail(u, before) == Ref(u[..n], before + 2 + n + b)
  {
    hide RunOf;
  }

  /** And only then. */
  lemma ReferenceOnly(word: string, s: string) returns (before: string, name: string, after: string, rest: string)
    requires RefTo(word, s).Ref?
    ensures AllBlank(before) && AllBlank(after) && IsParameterName(name)
    ensures s == Reference(before, word, name, after, rest) && RefTo(word, s) == Ref(name, |s| - |rest|)
  {
    hide RefTo, RunOf, Reference;
    var i, u, n, b := RefInto(word, s);
    RunIsAll(IsBlank, s[2..], i - 2);
    RunIsAll(IsNameChar, u, n);
    RunIsAll(IsBlank, u[n..], b);
    before, name, after, rest := s[2..][..i - 2], u[..n], u[n..][..b], u[n + b..][2..];
    Opens(word, s, i, before, u);
    Closes(u, n, b, rest);
    ReferenceLength(before, word, name, after, rest);
  }

  lemma RefInto(word: string, s: string) returns (i: nat, u: string, n: nat, b: nat)
    requires RefTo(word, s).Ref?
    ensures 2 <= i && i + |word| <= |s| && u == s[i + |word|..] && n <= |u| && n + b <= |u|
    ensures i == 2 + RunOf(IsBlank, s[2..]) && n == RunOf(IsNameChar, u) && b == RunOf(IsBlank, u[n..])
    ensures "<<" <= s && word <= s[i..] && 0 < n && ">>" <= u[n + b..]
    ensures RefTo(word, s) == Ref(u[..n], i + |word| + 2 + n + b)
  {
    hide RunOf;
    i := 2 + RunOf(IsBlank, s[2..]);
    u := s[i + |word|..];
    n := RunOf(IsNameChar, u);
    b := RunOf(IsBlank, u[n..]);
  }

  lemma Closes(u: string, n: nat, b: nat, rest: string)
    requires n + b <= |u| && ">>" <= u[n + b..] && rest == u[n + b..][2..]
    ensures u == u[..n] + (u[n..][..b] + (">>" + rest))
  {
    assert u[n + b..] == ">>" + rest;
    assert u[n..] == u[n..][..b] + u[n + b..];
    assert u == u[..n] + u[n..];
  }

  lemma RunStops(p: char -> bool, s: string, rest: string)
    requires (forall c :: c in s ==> p(c)) && (rest != "" ==> !p(rest[0]))
    ensures RunOf(p, s + rest) == |s|
  {
    var t, n := s + rest, RunOf(p, s + rest);
    hide RunOf;
    assert forall i :: 0 <= i < |s| ==> t[i] == s[i] && s[i] in s;
    assert |s| < |t| ==> t[|s|] == rest[0];
  }

  lemma RunIsAll(p: char -> bool, s: string, n: nat)
    requires n == RunOf(p, s)
    ensures forall c :: c in s[..n] ==> p(c)
  {
  }

  lemma Opens(word: string, s: string, i: nat, before: string, u: string)
    requires "<<" <= s && 2 <= i && i + |word| <= |s| && before == s[2..][..i - 2]
    requires word <= s[i..] && u == s[i + |word|..]
    ensures s == "<<" + (before + (word + u))
  {
    assert s[2..] == before + s[i..];
    assert s[i..] == word + u;
    assert s == "<<" + s[2..];
  }

  ghost predicate AllLower(s: string) { forall c :: c in s ==> 'a' <= c <= 'z' }

  /** A text begins with an interpolation exactly when it begins with "<<", blanks, lower-case
      letters and a '.'. */
  lemma InterpolationIs(before: string, word: string, rest: string)
    requires AllBlank(before) && AllLower(word) && word != ""
    ensures InterpolationAt("<<" + (before + (word + ("." + rest))))
  {
    var u := "." + rest;
    var t := word + u;
    assert t[0] == word[0] && word[0] in word;
    RunStops(IsBlank, before, t);
    RunStops(IsLower, word, u);
    hide RunOf, AllBlank, AllLower;
    var s := "<<" + (before + t);
    var i := 2 + |before|;
    assert s[0..] == s;
    Skip(s, 0, "<<", before + t);
    Skip(s, 2, before, t);
    Skip(s, i, word, u);
    assert s[i + |word|] == s[i + |word|..][0];
    hide InterpolationAt;
    InterpolationIntro(s, i, i + |word|);
  }

  /** And only then. */
  lemma InterpolationOnly(s: string) returns (before: string, word: string, rest: string)
    requires InterpolationAt(s)
    ensures AllBlank(before) && AllLower(word) && word != "" && s == "<<" + (before + (word + ("." + rest)))
  {
    hide InterpolationAt, RunOf;
    var i, j := InterpolationParts(s);
    before, word, rest := s[2..][..i - 2], s[i..][..j - i], s[j..][1..];
    Slices(s, i, j);
    LeadingBlanks(s[2..], i - 2);
    LeadingLower(s[i..], j - i);
    hide AllBlank, AllLower;
  }

  lemma LeadingBlanks(s: string, n: nat)
    requires n == RunOf(IsBlank, s)
    ensures AllBlank(s[..n])
  {
    RunIsAll(IsBlank, s, n);
    hide RunOf;
  }

  lemma LeadingLower(s: string, n: nat)
    requires n == RunOf(IsLower, s)
    ensures AllLower(s[..n])
  {
    RunIsAll(IsLower, s, n);
    hide RunOf;
  }

  lemma Slices(s: string, i: nat, j: nat)
    requires 2 <= i <= j < |s| && s[0] == s[1] == '<' && s[j] == '.'
    ensures s == "<<" + (s[2..][..i - 2] + (s[i..][..j - i] + ("." + s[j..][1..])))
  {
    assert s[j..] == "." + s[j..][1..];
    assert s[i..] == s[i..][..j - i] + s[j..];
    assert s[2..] == s[2..][..i - 2] + s[i..];
    assert s == "<<" + s[2..];
  }

  // --------------------------------------------------- what trimming leaves

  /** The white space of `strings.TrimSpace`. */
  lemma SpacesAre(c: char)
    ensures TrimSpace([c]) == "" <==>
      c as int in {9, 10, 11, 12, 13, 0x20, 0x85, 0xA0, 0x1680, 0x2000, 0x2001, 0x2002, 0x2003, 0x2004, 0x2005,
                   0x2006, 0x2007, 0x2008, 0x2009, 0x200A, 0x2028, 0x2029, 0x202F, 0x205F, 0x3000}
  {
    assert [c][1..] == "" && [c][..0] == "" && TrimLeft("") == "" && TrimRight("") == "";
    assert TrimLeft([c]) == (if IsSpace(c) then "" else [c]) == TrimRight([c]);
  }

  ghost predicate AllSpace(s: string) { forall c :: c in s ==> IsSpace(c) }

  /** Trimming takes off white space at both ends, all of it, and nothing else. */
  lemma TrimIs(s: string) returns (before: string, after: string)
    ensures s == before + TrimSpace(s) + after && AllSpace(before) && AllSpace(after)
    ensures var t := TrimSpace(s); t != "" ==> !IsSpace(t[0]) && !IsSpace(t[|t| - 1])
  {
    hide IsSpace, TrimLeft, TrimRight;
    before := LeftOff(s);
    after := RightOff(TrimLeft(s));
    var l, t := TrimLeft(s), TrimSpace(s);
    assert l == t + after && s == before + l;
    assert t != "" ==> t[0] == l[0];
  }

  lemma {:induction false} LeftOff(s: string) returns (before: string)
    ensures s == before + TrimLeft(s) && AllSpace(before)
    ensures TrimLeft(s) != "" ==> !IsSpace(TrimLeft(s)[0])
  {
    hide IsSpace;
    before := "";
    if s != "" && IsSpace(s[0]) {
      before := LeftOff(s[1..]);
      before := [s[0]] + before;
    }
  }

  lemma {:induction false} RightOff(s: string) returns (after: string)
    ensures s == TrimRight(s) + after && AllSpace(after)
    ensures TrimRight(s) != "" ==> !IsSpace(TrimRight(s)[|TrimRight(s)| - 1])
  {
    hide IsSpace;
    after := "";
    if s != "" && IsSpace(s[|s| - 1]) {
      after := RightOff(s[..|s| - 1]);
      after := after + [s[|s| - 1]];
    }
  }

  /** s is the word, in whatever case. */
  ghost predicate Spells(s: string, word: string) {
    |s| == |word| &&
    forall i :: 0 <= i < |s| ==> s[i] == word[i] || ('a' <= word[i] <= 'z' && s[i] as int + 32 == word[i] as int)
  }

  lemma {:induction false} LowerSpells(s: string, word: string)
    requires forall i :: 0 <= i < |word| ==> 'a' <= word[i] <= 'z' || '0' <= word[i] <= '9'
    ensures ToLower(s) == word <==> Spells(s, word)
  {
    if s != "" && word != "" {
      LowerSpells(s[1..], word[1..]);
      var t := ToLower(s);
      assert t[1..] == ToLower(s[1..]);
      assert t == word <==> t[0] == word[0] && t[1..] == word[1..];
      assert Spells(s, word) ==> Spells(s[1..], word[1..]);
      if Spells(s[1..], word[1..]) {
        assert forall i :: 1 <= i < |s| ==> s[i] == s[1..][i - 1] && word[i] == word[1..][i - 1];
      }
    }
  }

  /** The spellings of a boolean, in whatever case and with white space around. */
  lemma BooleansAre(s: string)
    ensures var t := TrimSpace(s);
            && (BoolValue(s) == Known(true) <==> Spells(t, "true") || Spells(t, "yes") || Spells(t, "on") || t == "1")
            && (BoolValue(s) == Known(false) <==> Spells(t, "false") || Spells(t, "no") || Spells(t, "off") || t == "0")
  {
    var t := TrimSpace(s);
    LowerSpells(t, "true");
    LowerSpells(t, "yes");
    LowerSpells(t, "on");
    LowerSpells(t, "1");
    LowerSpells(t, "false");
    LowerSpells(t, "no");
    LowerSpells(t, "off");
    LowerSpells(t, "0");
    hide ToLower, TrimSpace;
    DigitSpelled(t);
  }

  lemma DigitSpelled(t: string)
    ensures Spells(t, "1") <==> t == "1"
    ensures Spells(t, "0") <==> t == "0"
  {
  }
}
