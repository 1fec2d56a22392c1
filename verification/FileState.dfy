/** The git-free tree state of internal/filestate/filestate.go. */
module FileState {
  import Framing
  import opened Numbers
  import opened Options
  import opened Strings
  import opened TextLines

  datatype Entry = Entry(hash: string, lines: nat)

  type Index = map<string, Entry>

  // ------------------------------------------------------------ differences

  predicate Differs(now: Index, before: Index, path: string) {
    if path in now then path !in before || before[path].hash != now[path].hash else path in before
  }

  /** What one path adds to the size of the change. */
  function Cost(now: Index, before: Index, path: string): nat {
    if path in now then
      if path !in before then now[path].lines
      else if before[path].hash != now[path].hash then Max(before[path].lines, now[path].lines)
      else 0
    else if path in before then before[path].lines
    else 0
  }

  /** Sum of f over a set of paths. */
  ghost function Sum(keys: set<string>, f: string -> nat): nat {
    if keys == {} then 0
    else
      var k :| k in keys;
      f(k) + Sum(keys - {k}, f)
  }

  lemma {:induction false} SumRemove(keys: set<string>, f: string -> nat, x: string)
    requires x in keys
    ensures Sum(keys, f) == f(x) + Sum(keys - {x}, f)
  {
    var k :| k in keys && Sum(keys, f) == f(k) + Sum(keys - {k}, f);
    if k != x {
      SumRemove(keys - {k}, f, x);
      SumRemove(keys - {x}, f, k);
      assert keys - {k} - {x} == keys - {x} - {k};
    }
  }

  lemma SumAdd(keys: set<string>, f: string -> nat, x: string)
    requires x !in keys
    ensures Sum(keys + {x}, f) == Sum(keys, f) + f(x)
  {
    SumRemove(keys + {x}, f, x);
    assert keys + {x} - {x} == keys;
  }

  lemma {:induction false} SumBounded(keys: set<string>, f: string -> nat, g: string -> nat, h: string -> nat)
    requires forall k :: k in keys ==> f(k) <= g(k) + h(k)
    ensures Sum(keys, f) <= Sum(keys, g) + Sum(keys, h)
  {
    if keys != {} {
      var k :| k in keys;
      SumRemove(keys, f, k);
      SumRemove(keys, g, k);
      SumRemove(keys, h, k);
      SumBounded(keys - {k}, f, g, h);
    }
  }

  lemma {:induction false} SumSame(keys: set<string>, f: string -> nat, g: string -> nat)
    requires forall k :: k in keys ==> f(k) == g(k)
    ensures Sum(keys, f) == Sum(keys, g)
  {
    if keys != {} {
      var k :| k in keys;
      SumRemove(keys, f, k);
      SumRemove(keys, g, k);
      SumSame(keys - {k}, f, g);
    }
  }

  /** Keys where f is 0 do not matter. */
  lemma {:induction false} SumGrow(keys: set<string>, more: set<string>, f: string -> nat)
    requires keys <= more && forall k :: k in more - keys ==> f(k) == 0
    ensures Sum(more, f) == Sum(keys, f)
    decreases more
  {
    if keys != more {
      var k :| k in more && k !in keys;
      SumRemove(more, f, k);
      SumGrow(keys, more - {k}, f);
    }
  }

  function CostOf(now: Index, before: Index): string -> nat { p => Cost(now, before, p) }

  /** The size of the change between two trees. */
  ghost function Distance(now: Index, before: Index): nat {
    Sum(now.Keys + before.Keys, CostOf(now, before))
  }

  datatype Changes = Changes(paths: seq<string>, lines: nat, baseline: string)

  /** `Index.Changes`: Paths is the sorted, duplicate-free list of the paths that differ, and
      Lines the sum of their costs, whatever order the maps are walked in. */
  method ChangesSince(now: Index, earlier: Option<Index>) returns (ch: Changes)
    ensures var before := if earlier.Some? then earlier.value else map[];
            && Sorted(ch.paths) && Distinct(ch.paths)
            && (forall p :: p in ch.paths <==> Differs(now, before, p))
            && ch.lines == Distance(now, before)
            && ch.baseline == if earlier.Some? then "earlier state" else "whole tree"
  {
    hide Cost, Sorted, Sum;
    var before := if earlier.Some? then earlier.value else map[];
    var paths, lines := [], 0;
    ghost var done, f := {}, CostOf(now, before);
    SumNothing(f);

    var todo := now.Keys;
    while todo != {}
      invariant done == now.Keys - todo && todo <= now.Keys
      invariant Distinct(paths) && forall p :: p in paths <==> p in done && Differs(now, before, p)
      invariant lines == Sum(done, f)
      decreases todo
    {
      var path :| path in todo;
      SumAdd(done, f, path);
      CostNow(now, before, path);
      var entry := now[path];
      if path !in before {
        paths, lines := paths + [path], lines + entry.lines;
      } else if before[path].hash != entry.hash {
        paths, lines := paths + [path], lines + Max(before[path].lines, entry.lines);
      }
      todo, done := todo - {path}, done + {path};
    }

    todo := before.Keys;
    while todo != {}
      invariant done == now.Keys + (before.Keys - todo) && todo <= before.Keys
      invariant Distinct(paths) && forall p :: p in paths <==> p in done && Differs(now, before, p)
      invariant lines == Sum(done, f)
      decreases todo
    {
      var path :| path in todo;
      if path !in now {
        SumAdd(done, f, path);
        CostGone(now, before, path);
        paths, lines := paths + [path], lines + before[path].lines;
        done := done + {path};
      } else {
        assert done + {path} == done;
      }
      todo := todo - {path};
    }
    assert done == now.Keys + before.Keys;
    SortSorts(paths);
    SortKeepsDistinct(paths);
    ch := Changes(Sort(paths), lines, if earlier.Some? then "earlier state" else "whole tree");
  }

  lemma CostNow(now: Index, before: Index, path: string)
    requires path in now
    ensures Cost(now, before, path) == if path !in before then now[path].lines
              else if before[path].hash != now[path].hash then Max(before[path].lines, now[path].lines) else 0
  {
  }

  lemma CostGone(now: Index, before: Index, path: string)
    requires path !in now && path in before
    ensures Cost(now, before, path) == before[path].lines
  {
  }

  // ------------------------------------------------------ what the size is

  /** One path that differs counts its lines when it was added or is gone, and the larger of its two
      line counts when it was modified. */
  lemma OneChange(now: Index, before: Index, p: string)
    requires Differs(now, before, p) && forall q :: q != p ==> !Differs(now, before, q)
    ensures Distance(now, before) ==
      if p !in before then now[p].lines
      else if p !in now then before[p].lines
      else if now[p].lines < before[p].lines then before[p].lines
      else now[p].lines
  {
    var keys, f := now.Keys + before.Keys, CostOf(now, before);
    hide Sum;
    SumRemove(keys, f, p);
    forall q | q in keys - {p} ensures f(q) == 0 {
      assert !Differs(now, before, q);
    }
    SumGrow({}, keys - {p}, f);
    SumNothing(f);
  }

  function Only(i: Index, keys: set<string>): Index { map p | p in i && p in keys :: i[p] }

  function Without(i: Index, keys: set<string>): Index { map p | p in i && p !in keys :: i[p] }

  /** The size of a change is the sum over any two parts of the tree. */
  lemma ChangesAdd(now: Index, before: Index, keys: set<string>)
    ensures Distance(now, before) ==
      Distance(Only(now, keys), Only(before, keys)) + Distance(Without(now, keys), Without(before, keys))
  {
    var all, f := now.Keys + before.Keys, CostOf(now, before);
    var a, b := Only(now, keys).Keys + Only(before, keys).Keys, Without(now, keys).Keys + Without(before, keys).Keys;
    hide Sum;
    assert a == all * keys && b == all - keys;
    SumSplit(all, keys, f);
    forall p | p in a ensures f(p) == CostOf(Only(now, keys), Only(before, keys))(p) {
    }
    forall p | p in b ensures f(p) == CostOf(Without(now, keys), Without(before, keys))(p) {
    }
    SumSame(a, f, CostOf(Only(now, keys), Only(before, keys)));
    SumSame(b, f, CostOf(Without(now, keys), Without(before, keys)));
  }

  lemma {:induction false} SumSplit(all: set<string>, keys: set<string>, f: string -> nat)
    ensures Sum(all, f) == Sum(all * keys, f) + Sum(all - keys, f)
  {
    if all != {} {
      var k :| k in all;
      SumRemove(all, f, k);
      SumSplit(all - {k}, keys, f);
      if k in keys {
        SumRemove(all * keys, f, k);
        assert (all - {k}) * keys == all * keys - {k} && all - {k} - keys == all - keys;
      } else {
        SumRemove(all - keys, f, k);
        assert (all - {k}) * keys == all * keys && all - {k} - keys == all - keys - {k};
      }
    }
  }

  // ------------------------------------------------------ size as a distance

  /** Equal hashes mean equal line counts. */
  ghost predicate HashesAgree(a: Index, b: Index) {
    forall p :: p in a && p in b && a[p].hash == b[p].hash ==> a[p].lines == b[p].lines
  }

  /** No path differs: no distance. */
  lemma DistanceZero(a: Index, b: Index)
    requires forall p :: !Differs(a, b, p)
    ensures Distance(a, b) == 0
  {
    hide Sum;
    forall p | p in a.Keys + b.Keys ensures CostOf(a, b)(p) == 0 {
      assert !Differs(a, b, p);
    }
    SumGrow({}, a.Keys + b.Keys, CostOf(a, b));
    assert Sum({}, CostOf(a, b)) == 0 by { SumNothing(CostOf(a, b)); }
  }

  lemma SumNothing(f: string -> nat)
    ensures Sum({}, f) == 0
  {
  }

  lemma DistanceSymmetric(a: Index, b: Index)
    ensures Distance(a, b) == Distance(b, a)
  {
    hide Sum;
    assert a.Keys + b.Keys == b.Keys + a.Keys;
    forall p ensures Cost(a, b, p) == Cost(b, a, p) {
    }
    SumSame(a.Keys + b.Keys, CostOf(a, b), CostOf(b, a));
  }

  lemma CostTriangle(a: Index, b: Index, c: Index, p: string)
    requires HashesAgree(a, b) && HashesAgree(b, c)
    ensures Cost(a, c, p) <= Cost(a, b, p) + Cost(b, c, p)
  {
  }

  lemma DistanceOver(a: Index, b: Index, keys: set<string>)
    requires a.Keys + b.Keys <= keys
    ensures Sum(keys, CostOf(a, b)) == Distance(a, b)
  {
    hide Sum;
    SumGrow(a.Keys + b.Keys, keys, CostOf(a, b));
  }

  /** Going through a third tree is never shorter. */
  lemma DistanceTriangle(a: Index, b: Index, c: Index)
    requires HashesAgree(a, b) && HashesAgree(b, c)
    ensures Distance(a, c) <= Distance(a, b) + Distance(b, c)
  {
    var keys := a.Keys + b.Keys + c.Keys;
    DistanceOver(a, b, keys);
    DistanceOver(b, c, keys);
    DistanceOver(a, c, keys);
    hide Cost, Distance, Sum, HashesAgree;
    forall p | p in keys ensures CostOf(a, c)(p) <= CostOf(a, b)(p) + CostOf(b, c)(p) {
      CostTriangle(a, b, c, p);
    }
    SumBounded(keys, CostOf(a, c), CostOf(a, b), CostOf(b, c));
  }

  /** The agreement of hashes is needed. Read a buffer full at once, a text with a NUL further on
      in it counts no lines; read byte first, it counts all of them. With both counts in play,
      going through the other reading of the same tree is shorter than the change itself. */
  lemma TriangleNeedsAgreement(s: string, hash: string -> string)
    requires NulInside(s) && hash(s) != hash("")
    ensures var bytewise, full := Reading(s, 1), Reading(s, Window(s));
            && Readable(bytewise, s) && Readable(full, s) && Readable([], "")
            && (var a := map["f" := Entry(hash(s), CountOf(bytewise))];
                var b := map["f" := Entry(hash(s), CountOf(full))];
                var c := map["f" := Entry(hash(""), CountOf([]))];
                Distance(a, c) > Distance(a, b) + Distance(b, c))
  {
    TwoReadings(s);
    NothingRead();
    var a := map["f" := Entry(hash(s), CountOf(Reading(s, 1)))];
    var b := map["f" := Entry(hash(s), CountOf(Reading(s, Window(s))))];
    var c := map["f" := Entry(hash(""), CountOf([]))];
    hide CountOf, Distance, Reading, Window, NulInside;
    OneFile(a, c);
    OneFile(a, b);
    OneFile(b, c);
  }

  lemma NothingRead()
    ensures CountOf([]) == 0 && Readable([], "")
  {
    NoNewlines();
  }

  lemma OneFile(a: Index, b: Index)
    requires a.Keys == b.Keys == {"f"}
    ensures Distance(a, b) == Cost(a, b, "f")
  {
    assert a.Keys + b.Keys == {} + {"f"};
    SumNothing(CostOf(a, b));
    SumAdd({}, CostOf(a, b), "f");
  }

  // ------------------------------------------------- what a line diff touches

  datatype Edit = Keep | Delete | Add(line: string)

  /** The script turns the lines `was` into the lines `now`. */
  ghost predicate Turns(script: seq<Edit>, was: seq<string>, now: seq<string>) {
    if script == [] then was == [] && now == []
    else match script[0]
      case Keep => was != [] && now != [] && was[0] == now[0] && Turns(script[1..], was[1..], now[1..])
      case Delete => was != [] && Turns(script[1..], was[1..], now)
      case Add(line) => now != [] && now[0] == line && Turns(script[1..], was, now[1..])
  }

  /** Insertions plus deletions. */
  function Touched(script: seq<Edit>): nat {
    if script == [] then 0 else (if script[0].Keep? then 0 else 1) + Touched(script[1..])
  }

  lemma {:induction false} TouchedBounded(script: seq<Edit>, was: seq<string>, now: seq<string>)
    requires Turns(script, was, now)
    ensures Touched(script) <= |was| + |now|
  {
    if script != [] {
      match script[0]
      case Keep => TouchedBounded(script[1..], was[1..], now[1..]);
      case Delete => TouchedBounded(script[1..], was[1..], now);
      case Add(line) => TouchedBounded(script[1..], was, now[1..]);
    }
  }

  /** Delete everything, then add everything. */
  function Rewrite(was: seq<string>, now: seq<string>): seq<Edit> {
    if was != [] then [Delete] + Rewrite(was[1..], now)
    else if now != [] then [Add(now[0])] + Rewrite(was, now[1..])
    else []
  }

  lemma {:induction false} RewriteTouchesAll(was: seq<string>, now: seq<string>)
    ensures Turns(Rewrite(was, now), was, now) && Touched(Rewrite(was, now)) == |was| + |now|
    decreases |was| + |now|
  {
    if was != [] {
      RewriteTouchesAll(was[1..], now);
    } else if now != [] {
      RewriteTouchesAll(was, now[1..]);
    }
  }

  /** How many lines the longest common subsequence of two texts has. */
  function Common(was: seq<string>, now: seq<string>): nat
    decreases |was| + |now|
  {
    if was == [] || now == [] then 0
    else if was[0] == now[0] then 1 + Common(was[1..], now[1..])
    else Max(Common(was[1..], now), Common(was, now[1..]))
  }

  lemma {:induction false} CommonStep(was: seq<string>, now: seq<string>)
    ensures was != [] ==> Common(was[1..], now) <= Common(was, now) <= 1 + Common(was[1..], now)
    ensures now != [] ==> Common(was, now[1..]) <= Common(was, now) <= 1 + Common(was, now[1..])
    decreases |was| + |now|
  {
    if was != [] && now != [] {
      CommonStep(was[1..], now);
      CommonStep(was, now[1..]);
    }
  }

  function Kept(script: seq<Edit>): nat {
    if script == [] then 0 else (if script[0].Keep? then 1 else 0) + Kept(script[1..])
  }

  /** No diff keeps more than the longest common subsequence. */
  lemma {:induction false} KeptBounded(script: seq<Edit>, was: seq<string>, now: seq<string>)
    requires Turns(script, was, now)
    ensures Touched(script) + 2 * Kept(script) == |was| + |now|
    ensures Kept(script) <= Common(was, now)
  {
    if script != [] {
      CommonStep(was, now);
      match script[0]
      case Keep => KeptBounded(script[1..], was[1..], now[1..]);
      case Delete => KeptBounded(script[1..], was[1..], now);
      case Add(line) => KeptBounded(script[1..], was, now[1..]);
    }
  }

  /** A shortest diff. */
  lemma {:induction false} ShortestDiff(was: seq<string>, now: seq<string>) returns (script: seq<Edit>)
    ensures Turns(script, was, now) && Touched(script) == |was| + |now| - 2 * Common(was, now)
    decreases |was| + |now|
  {
    if was == [] || now == [] {
      RewriteTouchesAll(was, now);
      return Rewrite(was, now);
    }
    var rest;
    if was[0] == now[0] {
      rest := ShortestDiff(was[1..], now[1..]);
      script := [Keep] + rest;
    } else if Common(was[1..], now) >= Common(was, now[1..]) {
      rest := ShortestDiff(was[1..], now);
      script := [Delete] + rest;
    } else {
      rest := ShortestDiff(was, now[1..]);
      script := [Add(now[0])] + rest;
    }
    assert script[1..] == rest;
  }

  /** A modified file counts at least what a shortest diff touches. */
  ghost predicate CountsTheMost(was: seq<string>, now: seq<string>) {
    exists script :: Turns(script, was, now) && Touched(script) <= Max(|was|, |now|)
  }

  /** That is so exactly when the two versions share half the lines of the shorter one, in order. */
  lemma CountsTheMostIff(was: seq<string>, now: seq<string>)
    ensures CountsTheMost(was, now) <==> 2 * Common(was, now) >= (if |was| < |now| then |was| else |now|)
  {
    hide Turns, Touched, Common;
    forall script | Turns(script, was, now) ensures Touched(script) >= |was| + |now| - 2 * Common(was, now) {
      KeptBounded(script, was, now);
    }
    var best := ShortestDiff(was, now);
  }

  lemma {:induction false} NothingShared(was: seq<string>, now: seq<string>)
    requires forall i, j :: 0 <= i < |was| && 0 <= j < |now| ==> was[i] != now[j]
    ensures Common(was, now) == 0
    decreases |was| + |now|
  {
    if was != [] && now != [] {
      NothingShared(was[1..], now);
      NothingShared(was, now[1..]);
    }
  }

  /** By line counts alone it can be relied on only when one version has no lines: otherwise a
      full rewrite of n lines into m touches n + m, and counts the larger of the two. */
  lemma CountsTheMostForAllIff(n: nat, m: nat)
    ensures (forall was: seq<string>, now: seq<string> :: |was| == n && |now| == m ==> CountsTheMost(was, now))
      <==> n == 0 || m == 0
  {
    hide CountsTheMost;
    var a, b := seq(n, i => "a"), seq(m, i => "b");
    assert forall i, j :: 0 <= i < n && 0 <= j < m ==> a[i] != b[j];
    NothingShared(a, b);
    CountsTheMostIff(a, b);
    assert |a| == n && |b| == m;
    forall was: seq<string>, now: seq<string> | |was| == n && |now| == m && (n == 0 || m == 0)
      ensures CountsTheMost(was, now)
    {
      CountsTheMostIff(was, now);
    }
  }

  /** The contents behind an index: the lines of every file. */
  ghost predicate Behind(contents: map<string, seq<string>>, i: Index) {
    contents.Keys == i.Keys && forall p :: p in i ==> |contents[p]| == i[p].lines
  }

  function LinesAt(contents: map<string, seq<string>>, p: string): seq<string> {
    if p in contents then contents[p] else []
  }

  function TouchedAt(diff: map<string, seq<Edit>>): string -> nat {
    p => if p in diff then Touched(diff[p]) else 0
  }

  /** Twice the reported size is at least the insertions plus deletions of any line diff. */
  lemma TwiceCoversAnyDiff(diff: map<string, seq<Edit>>, now: Index, nowLines: map<string, seq<string>>,
      before: Index, beforeLines: map<string, seq<string>>)
    requires Behind(nowLines, now) && Behind(beforeLines, before)
    requires forall p :: p in diff ==>
               Differs(now, before, p) && Turns(diff[p], LinesAt(beforeLines, p), LinesAt(nowLines, p))
    ensures Sum(now.Keys + before.Keys, TouchedAt(diff)) <= 2 * Distance(now, before)
  {
    var f := CostOf(now, before);
    forall p | p in now.Keys + before.Keys ensures TouchedAt(diff)(p) <= f(p) + f(p) {
      if p in diff {
        TouchedBounded(diff[p], LinesAt(beforeLines, p), LinesAt(nowLines, p));
        assert Differs(now, before, p);
      }
    }
    hide Sum, Touched, Turns;
    SumBounded(now.Keys + before.Keys, TouchedAt(diff), f, f);
  }

  // ------------------------------------------------------------------ digest

  /** The parts fed to the hash: every path, in sorted order, followed by its content hash. */
  function Parts(i: Index, paths: seq<string>): seq<string>
    requires forall p :: p in paths ==> p in i
  {
    if paths == [] then []
    else Parts(i, paths[..|paths| - 1]) + [paths[|paths| - 1], i[paths[|paths| - 1]].hash]
  }

  /** What `Digest` hashes. */
  ghost function Preimage(i: Index): string { Framing.Frames(Parts(i, SortedKeys(i.Keys))) }

  /** `Index.Digest`, for any hash function. */
  method Digest(i: Index, hash: string -> string) returns (d: string)
    ensures d == hash(Preimage(i))
  {
    hide Sorted, Distinct, Sort, Framing.Frames, Framing.WritePart;
    var sorted := ListKeys(i.Keys);
    var h := new Framing.Hash();
    Framing.NoFrames();
    for k := 0 to |sorted|
      invariant fresh(h) && (forall p :: p in sorted ==> p in i)
      invariant h.fed == Framing.Frames(Parts(i, sorted[..k]))
    {
      var p := sorted[k];
      h.Feed(p);
      h.Feed(i[p].hash);
      FeedTwo(Parts(i, sorted[..k]), p, i[p].hash);
      assert sorted[..k + 1][..k] == sorted[..k];
    }
    assert sorted[..|sorted|] == sorted;
    d := hash(h.fed);
  }

  lemma FeedTwo(parts: seq<string>, a: string, b: string)
    ensures Framing.Frames(parts + [a, b]) == Framing.Frames(parts) + Framing.WritePart(a) + Framing.WritePart(b)
  {
    hide Framing.WritePart, Framing.Frames;
    assert parts + [a, b] == parts + [a] + [b];
    Framing.FramesAppend(parts + [a], [b]);
    Framing.FramesAppend(parts, [a]);
    Framing.OneFrame(a);
    Framing.OneFrame(b);
  }

  lemma {:induction false} PartsAt(i: Index, paths: seq<string>, k: nat)
    requires (forall p :: p in paths ==> p in i) && k < |paths|
    ensures |Parts(i, paths)| == 2 * |paths|
    ensures Parts(i, paths)[2 * k] == paths[k] && Parts(i, paths)[2 * k + 1] == i[paths[k]].hash
  {
    var front := paths[..|paths| - 1];
    if k < |front| {
      PartsAt(i, front, k);
    } else {
      PartsLength(i, front);
    }
  }

  lemma {:induction false} PartsLength(i: Index, paths: seq<string>)
    requires forall p :: p in paths ==> p in i
    ensures |Parts(i, paths)| == 2 * |paths|
  {
    if paths != [] { PartsLength(i, paths[..|paths| - 1]); }
  }

  /** The parts determine the index, up to line counts. */
  lemma PartsDetermine(a: Index, b: Index)
    requires Parts(a, SortedKeys(a.Keys)) == Parts(b, SortedKeys(b.Keys))
    ensures forall p :: !Differs(a, b, p)
  {
    var s, t := SortedKeys(a.Keys), SortedKeys(b.Keys);
    hide SortedKeys, Parts;
    PartsLength(a, s);
    PartsLength(b, t);
    forall k | 0 <= k < |s| ensures s[k] == t[k] && a[s[k]].hash == b[s[k]].hash {
      PartsAt(a, s, k);
      PartsAt(b, t, k);
    }
    assert s == t;
    forall p ensures !Differs(a, b, p) {
      if p in a || p in b {
        assert p in s;
      }
    }
  }

  lemma {:induction false} PartsSame(a: Index, b: Index, paths: seq<string>)
    requires forall p :: p in paths ==> p in a && p in b && a[p].hash == b[p].hash
    ensures Parts(a, paths) == Parts(b, paths)
  {
    if paths != [] { PartsSame(a, b, paths[..|paths| - 1]); }
  }

  /** What the digest hashes is the same exactly when `Changes` lists no path. */
  lemma PreimageIff(a: Index, b: Index)
    ensures Preimage(a) == Preimage(b) <==> forall p :: !Differs(a, b, p)
  {
    if Preimage(a) == Preimage(b) {
      Framing.FramesInjective(Parts(a, SortedKeys(a.Keys)), Parts(b, SortedKeys(b.Keys)));
      PartsDetermine(a, b);
    }
    if forall p :: !Differs(a, b, p) {
      forall p ensures p in a <==> p in b { assert !Differs(a, b, p); }
      SortedUnique(SortedKeys(a.Keys), SortedKeys(b.Keys));
      forall p | p in SortedKeys(a.Keys) ensures p in a && p in b && a[p].hash == b[p].hash {
        assert !Differs(a, b, p);
      }
      PartsSame(a, b, SortedKeys(a.Keys));
    }
  }

  /** What is hashed: every path in byte order, each followed by the hash of its content. */
  lemma PreimageIs(i: Index, paths: seq<string>, parts: seq<string>)
    requires Sorted(paths) && Distinct(paths) && forall p :: p in paths <==> p in i
    requires |parts| == 2 * |paths|
    requires forall k :: 0 <= k < |paths| ==> parts[2 * k] == paths[k] && parts[2 * k + 1] == i[paths[k]].hash
    ensures Preimage(i) == Framing.Frames(parts)
  {
    hide Sorted, Distinct, SortedKeys, Framing.Frames, Parts;
    SortedUnique(paths, SortedKeys(i.Keys));
    PartsAre(i, paths, parts);
  }

  lemma PartsAre(i: Index, paths: seq<string>, parts: seq<string>)
    requires (forall p :: p in paths ==> p in i) && |parts| == 2 * |paths|
    requires forall k :: 0 <= k < |paths| ==> parts[2 * k] == paths[k] && parts[2 * k + 1] == i[paths[k]].hash
    ensures parts == Parts(i, paths)
  {
    hide Parts;
    PartsLength(i, paths);
    forall n | 0 <= n < |parts| ensures parts[n] == Parts(i, paths)[n] {
      var k := n / 2;
      PartsAt(i, paths, k);
      assert n == 2 * k || n == 2 * k + 1;
    }
  }

  ghost predicate Injective(hash: string -> string) {
    forall x, y :: hash(x) == hash(y) ==> x == y
  }

  /** With an injective hash, equal digests are exactly an empty list of changes. */
  lemma DigestAgreesWithChanges(a: Index, b: Index, hash: string -> string)
    requires Injective(hash)
    ensures hash(Preimage(a)) == hash(Preimage(b)) <==> forall p :: !Differs(a, b, p)
  {
    PreimageIff(a, b);
  }

  /** Whatever the hash: two trees that differ but share a digest give away a collision of it. */
  lemma DigestClashIsACollision(a: Index, b: Index, hash: string -> string, p: string) returns (x: string, y: string)
    requires Differs(a, b, p) && hash(Preimage(a)) == hash(Preimage(b))
    ensures x != y && hash(x) == hash(y)
  {
    PreimageIff(a, b);
    x, y := Preimage(a), Preimage(b);
  }

  // --------------------------------------------------------- counting lines

  function Newlines(s: string): nat {
    if s == [] then 0 else Newlines(s[..|s| - 1]) + (if s[|s| - 1] == '\n' then 1 else 0)
  }

  /** Lines of a text file, a last one without a newline included. */
  function LineCount(s: string): nat {
    Newlines(s) + (if s != [] && s[|s| - 1] != '\n' then 1 else 0)
  }

  /** The first read that returned bytes. */
  function FirstRead(chunks: seq<string>): string {
    if chunks == [] then [] else if chunks[0] != [] then chunks[0] else FirstRead(chunks[1..])
  }

  lemma {:induction false} NewlinesAppend(s: string, t: string)
    ensures Newlines(s + t) == Newlines(s) + Newlines(t)
  {
    if t == [] {
      assert s + t == s;
    } else {
      NewlinesAppend(s, t[..|t| - 1]);
      assert (s + t)[..|s + t| - 1] == s + t[..|t| - 1];
    }
  }

  lemma {:induction false} FirstReadAppend(chunks: seq<string>, r: string)
    ensures FirstRead(chunks + [r]) == if FirstRead(chunks) != [] then FirstRead(chunks) else r
    ensures FirstRead(chunks) == [] <==> Concat(chunks) == []
  {
    if chunks == [] {
      assert chunks + [r] == [r];
    } else {
      FirstReadAppend(chunks[1..], r);
      assert (chunks + [r])[1..] == chunks[1..] + [r];
      ConcatFirst(chunks);
    }
  }

  lemma {:induction false} ConcatFirst(chunks: seq<string>)
    requires chunks != []
    ensures Concat(chunks) == chunks[0] + Concat(chunks[1..])
  {
    hide Concat;
    var front, last := chunks[..|chunks| - 1], chunks[|chunks| - 1];
    assert chunks == front + [last];
    ConcatStep(front, last);
    NothingRead();
    if front == [] {
      assert chunks[1..] == [] && Concat([]) + last == last + Concat([]);
    } else {
      ConcatFirst(front);
      assert chunks[1..] == front[1..] + [last];
      ConcatStep(front[1..], last);
      Regroup(chunks[0], Concat(front[1..]), last);
    }
  }

  lemma ConcatStep(chunks: seq<string>, last: string)
    ensures Concat(chunks + [last]) == Concat(chunks) + last
  {
    assert (chunks + [last])[..|chunks|] == chunks;
  }

  /** Binary is decided by the first read alone, and a binary file counts no lines. */
  function CountOf(chunks: seq<string>): nat {
    if '\0' in FirstRead(chunks) then 0 else LineCount(Concat(chunks))
  }

  /** The counting of `hashAndCount` over the reads that returned a file's bytes. */
  method CountLines(chunks: seq<string>) returns (lines: nat)
    ensures lines == CountOf(chunks)
  {
    hide Newlines, FirstRead;
    lines := 0;
    var first, binary, lastByte, read := true, false, ' ', 0;
    FirstReadAppend([], []);
    NoNewlines();
    for k := 0 to |chunks|
      invariant read == |Concat(chunks[..k])| && (first <==> FirstRead(chunks[..k]) == [])
      invariant binary <==> '\0' in FirstRead(chunks[..k])
      invariant binary ==> lines == 0
      invariant !binary ==> lines == Newlines(Concat(chunks[..k]))
      invariant !binary && read > 0 ==> lastByte == Concat(chunks[..k])[read - 1]
    {
      var chunk := chunks[k];
      assert chunks[..k + 1] == chunks[..k] + [chunk] && chunks[..k + 1][..k] == chunks[..k];
      FirstReadAppend(chunks[..k], chunk);
      NewlinesAppend(Concat(chunks[..k]), chunk);
      if |chunk| > 0 {
        if first {
          first := false;
          binary := '\0' in chunk;
        }
        if !binary {
          lines := lines + Newlines(chunk);
          lastByte := chunk[|chunk| - 1];
        }
        read := read + |chunk|;
      }
    }
    assert chunks[..|chunks|] == chunks;
    if !binary && read > 0 && lastByte != '\n' {
      lines := lines + 1;
    }
  }

  lemma NoNewlines()
    ensures Newlines([]) == 0 && FirstRead([]) == [] && Concat([]) == []
  {
  }

  // ---------------------------------------- how a file's bytes can be read

  const BUFFER: nat := 65536 // 64 KiB

  /** The reads of a file with content s: none brings more than the buffer holds. */
  ghost predicate Readable(chunks: seq<string>, s: string) {
    Concat(chunks) == s && forall i :: 0 <= i < |chunks| ==> |chunks[i]| <= BUFFER
  }

  /** How much of s the first read can see. */
  function Window(s: string): (n: nat)
    ensures n <= |s| && n <= BUFFER
    ensures n == |s| || n == BUFFER
  {
    Min(|s|, BUFFER)
  }

  function Chop(s: string): seq<string>
    decreases |s|
  {
    if s == [] then [] else [s[..Window(s)]] + Chop(s[Window(s)..])
  }

  lemma {:induction false} ChopReads(s: string)
    ensures Readable(Chop(s), s)
    decreases |s|
  {
    if s != [] {
      var n := Window(s);
      ChopReads(s[n..]);
      ConcatFirst(Chop(s));
      assert Chop(s)[1..] == Chop(s[n..]);
      assert s[..n] + s[n..] == s;
    }
  }

  /** A reading whose first read brings n bytes. */
  function Reading(s: string, n: nat): seq<string>
    requires 0 < n <= Window(s)
  {
    [s[..n]] + Chop(s[n..])
  }

  lemma ReadingReads(s: string, n: nat)
    requires 0 < n <= Window(s)
    ensures Readable(Reading(s, n), s) && FirstRead(Reading(s, n)) == s[..n]
  {
    var r := Reading(s, n);
    ChopReads(s[n..]);
    ConcatFirst(r);
    assert r[1..] == Chop(s[n..]) && s[..n] + s[n..] == s;
  }

  /** A NUL where the first read can see it, but not at the very start. */
  predicate NulInside(s: string) { '\0' in s[..Window(s)] && s[0] != '\0' }

  /** The count does not depend on how the bytes were read exactly when no NUL lies in the first
      64 KiB, or the file begins with one. Only then do equal contents, hence equal hashes, mean
      equal counts. */
  lemma CountIgnoresReadsIff(s: string)
    ensures (forall a, b :: Readable(a, s) && Readable(b, s) ==> CountOf(a) == CountOf(b))
      <==> '\0' !in s[..if |s| < 65536 then |s| else 65536] || s[0] == '\0'
  {
    hide LineCount, Concat, FirstRead;
    if NulInside(s) {
      TwoReadings(s);
      assert CountOf(Reading(s, 1)) != CountOf(Reading(s, Window(s)));
    } else {
      forall a | Readable(a, s) ensures CountOf(a) == if s != "" && s[0] == '\0' then 0 else LineCount(s) {
        FirstReadSees(a, s);
      }
    }
  }

  /** The first read brings a beginning of the file no longer than the buffer, and something if
      there is anything. */
  lemma FirstReadSees(chunks: seq<string>, s: string)
    requires Readable(chunks, s)
    ensures FirstRead(chunks) <= s[..Window(s)]
    ensures s != "" ==> FirstRead(chunks) != "" && FirstRead(chunks)[0] == s[0]
  {
    FirstReadStarts(chunks);
    FirstReadBounded(chunks);
    var f := FirstRead(chunks);
    assert s[..Window(s)][..|f|] == s[..|f|];
  }

  lemma {:induction false} FirstReadBounded(chunks: seq<string>)
    requires forall i :: 0 <= i < |chunks| ==> |chunks[i]| <= BUFFER
    ensures |FirstRead(chunks)| <= BUFFER
  {
    if chunks != [] { FirstReadBounded(chunks[1..]); }
  }

  /** With a full first read a text with a NUL inside is binary; with a first read of one byte it
      is not. */
  lemma TwoReadings(s: string)
    requires NulInside(s)
    ensures Readable(Reading(s, 1), s) && Readable(Reading(s, Window(s)), s)
    ensures CountOf(Reading(s, Window(s))) == 0 && CountOf(Reading(s, 1)) > 0
  {
    ReadingReads(s, 1);
    ReadingReads(s, Window(s));
    assert s[..1] == [s[0]];
    hide Reading;
    assert LineCount(s) > 0 by { SomeLines(s); }
  }

  lemma SomeLines(s: string)
    requires s != ""
    ensures LineCount(s) > 0
  {
  }

  lemma {:induction false} FirstReadStarts(chunks: seq<string>)
    ensures FirstRead(chunks) <= Concat(chunks)
    ensures Concat(chunks) != [] ==> FirstRead(chunks) != []
  {
    if chunks != [] {
      ConcatFirst(chunks);
      FirstReadStarts(chunks[1..]);
    }
  }

  // ------------------------------------------------- the lines behind a count

  /** The lines of a text, a last one without a newline included. */
  function TextLinesOf(s: string): seq<string> { Lines(s) + (if Rest(s) != "" then [Rest(s)] else []) }

  lemma {:induction false} NewlinesAre(s: string)
    ensures Newlines(s) == |Lines(s)| && (Rest(s) == "" <==> s == "" || s[|s| - 1] == '\n')
  {
    if s != "" { NewlinesAre(s[..|s| - 1]); }
  }

  /** A file whose first read holds no NUL counts its lines, and one more for text after the last
      newline; any other counts none. */
  lemma CountIs(chunks: seq<string>)
    ensures var s := Concat(chunks);
            CountOf(chunks) == if '\0' in FirstRead(chunks) then 0
                               else |Lines(s)| + (if Rest(s) != "" then 1 else 0)
  {
    NewlinesAre(Concat(chunks));
    hide FirstRead, Concat, Newlines, Lines, Rest;
  }

  /** An index as the walk makes it: every file hashed and counted as it was read. */
  ghost predicate Built(i: Index, files: map<string, string>, chunks: map<string, seq<string>>,
      hash: string -> string)
  {
    && i.Keys == files.Keys == chunks.Keys
    && forall p :: p in i ==> Readable(chunks[p], files[p]) && i[p] == Entry(hash(files[p]), CountOf(chunks[p]))
  }

  /** No file was taken for binary. */
  ghost predicate AllText(chunks: map<string, seq<string>>) {
    forall p :: p in chunks ==> '\0' !in FirstRead(chunks[p])
  }

  function LinesOfAll(files: map<string, string>): map<string, seq<string>> {
    map p | p in files :: TextLinesOf(files[p])
  }

  lemma BuiltIsBehind(i: Index, files: map<string, string>, chunks: map<string, seq<string>>, hash: string -> string)
    requires Built(i, files, chunks, hash) && AllText(chunks)
    ensures Behind(LinesOfAll(files), i)
  {
    hide CountOf, Lines, Rest, FirstRead, Concat;
    forall p | p in i ensures |LinesOfAll(files)[p]| == i[p].lines {
      CountIs(chunks[p]);
    }
  }

  /** So for text files twice the size the code reports is at least the insertions plus deletions
      of any line diff of their contents. */
  lemma TwiceCoversFiles(diff: map<string, seq<Edit>>, now: Index, nowFiles: map<string, string>,
      nowReads: map<string, seq<string>>, before: Index, oldFiles: map<string, string>,
      oldReads: map<string, seq<string>>, hash: string -> string)
    requires Built(now, nowFiles, nowReads, hash) && AllText(nowReads)
    requires Built(before, oldFiles, oldReads, hash) && AllText(oldReads)
    requires forall p :: p in diff ==>
               && Differs(now, before, p)
               && Turns(diff[p], LinesAt(LinesOfAll(oldFiles), p), LinesAt(LinesOfAll(nowFiles), p))
    ensures Sum(now.Keys + before.Keys, TouchedAt(diff)) <= 2 * Distance(now, before)
  {
    BuiltIsBehind(now, nowFiles, nowReads, hash);
    BuiltIsBehind(before, oldFiles, oldReads, hash);
    hide Sum, Turns, Touched, Built, AllText, LinesOfAll;
    TwiceCoversAnyDiff(diff, now, LinesOfAll(nowFiles), before, LinesOfAll(oldFiles));
  }

  /** And trees of files without a NUL inside agree on their hashes, so the size is a distance
      between them. */
  lemma BuiltAgree(a: Index, aFiles: map<string, string>, aReads: map<string, seq<string>>,
      b: Index, bFiles: map<string, string>, bReads: map<string, seq<string>>, hash: string -> string)
    requires Injective(hash) && Built(a, aFiles, aReads, hash) && Built(b, bFiles, bReads, hash)
    requires forall p :: p in a ==> !NulInside(aFiles[p])
    ensures HashesAgree(a, b)
  {
    hide CountOf, Readable;
    forall p | p in a && p in b && a[p].hash == b[p].hash ensures a[p].lines == b[p].lines {
      CountIgnoresReadsIff(aFiles[p]);
      assert aFiles[p] == bFiles[p];
    }
  }
}
