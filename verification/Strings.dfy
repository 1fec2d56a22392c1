/** Strings in byte order, and sorting them: the meaning of `sort.Strings`. */
module Strings {

  predicate Leq(a: string, b: string) {
    if a == [] then true
    else if b == [] then false
    else if a[0] != b[0] then a[0] < b[0]
    else Leq(a[1..], b[1..])
  }

  /** The order of bytes: a beginning comes first, and otherwise the first difference decides. */
  lemma {:induction false} LeqIs(a: string, b: string)
    ensures Leq(a, b) <==> a <= b || exists i :: DiffersAt(a, b, i)
  {
    if a != "" && b != "" {
      hide DiffersAt;
      if a[0] == b[0] {
        LeqIs(a[1..], b[1..]);
        SameStart(a, b);
      } else {
        OtherStart(a, b);
      }
    }
  }

  /** The first difference is at i, and a is the smaller there. */
  ghost predicate DiffersAt(a: string, b: string, i: nat) { i < |a| && i < |b| && a[..i] == b[..i] && a[i] < b[i] }

  lemma SameStart(a: string, b: string)
    requires a != "" && b != "" && a[0] == b[0]
    ensures a <= b <==> a[1..] <= b[1..]
    ensures (exists i :: DiffersAt(a, b, i)) <==> exists i :: DiffersAt(a[1..], b[1..], i)
  {
    var x, y := a[1..], b[1..];
    assert a == [a[0]] + x && b == [a[0]] + y;
    forall i: nat | DiffersAt(x, y, i) ensures DiffersAt(a, b, i + 1) {
      assert a[..i + 1] == [a[0]] + x[..i] && b[..i + 1] == [a[0]] + y[..i];
    }
    forall i: nat | DiffersAt(a, b, i) ensures i > 0 && DiffersAt(x, y, i - 1) {
      assert x[..i - 1] == a[..i][1..] && y[..i - 1] == b[..i][1..];
    }
  }

  lemma OtherStart(a: string, b: string)
    requires a != "" && b != "" && a[0] != b[0]
    ensures !(a <= b) && ((exists i :: DiffersAt(a, b, i)) <==> a[0] < b[0])
  {
    assert a[0] < b[0] ==> DiffersAt(a, b, 0);
    forall i: nat | 0 < i < |a| && i < |b| ensures a[..i] != b[..i] {
      assert a[..i][0] == a[0] && b[..i][0] == b[0];
    }
  }

  lemma LeqTotal(a: string, b: string)
    ensures Leq(a, b) || Leq(b, a)
  {
  }

  lemma {:induction false} LeqAntisymmetric(a: string, b: string)
    requires Leq(a, b) && Leq(b, a)
    ensures a == b
  {
    if a != [] && b != [] {
      LeqAntisymmetric(a[1..], b[1..]);
      assert a == [a[0]] + a[1..] && b == [b[0]] + b[1..];
    }
  }

  lemma {:induction false} LeqTransitive(a: string, b: string, c: string)
    requires Leq(a, b) && Leq(b, c)
    ensures Leq(a, c)
  {
    if a != [] && b != [] && c != [] && a[0] == b[0] == c[0] {
      LeqTransitive(a[1..], b[1..], c[1..]);
    }
  }

  ghost predicate Sorted(s: seq<string>) {
    forall i, j :: 0 <= i < j < |s| ==> Leq(s[i], s[j])
  }

  function Insert(x: string, s: seq<string>): seq<string> {
    if s == [] || Leq(x, s[0]) then [x] + s else [s[0]] + Insert(x, s[1..])
  }

  function Sort(s: seq<string>): seq<string> {
    if s == [] then [] else Insert(s[0], Sort(s[1..]))
  }

  lemma {:induction false} InsertSorts(x: string, s: seq<string>)
    requires Sorted(s)
    ensures Sorted(Insert(x, s))
    ensures multiset(Insert(x, s)) == multiset(s) + multiset{x}
  {
    hide Leq;
    if s == [] {
      assert Insert(x, s) == [x];
    } else if Leq(x, s[0]) {
      forall j | 0 <= j < |s| ensures Leq(x, s[j]) {
        if j > 0 { LeqTransitive(x, s[0], s[j]); }
      }
    } else {
      InsertSorts(x, s[1..]);
      LeqTotal(x, s[0]);
      var r := Insert(x, s[1..]);
      assert s == [s[0]] + s[1..];
      forall j | 0 <= j < |r| ensures Leq(s[0], r[j]) {
        assert r[j] in multiset(s[1..]) + multiset{x};
      }
    }
  }

  lemma {:induction false} SortSorts(s: seq<string>)
    ensures Sorted(Sort(s)) && multiset(Sort(s)) == multiset(s)
  {
    if s != [] {
      SortSorts(s[1..]);
      InsertSorts(s[0], Sort(s[1..]));
      assert s == [s[0]] + s[1..];
    }
  }

  /** A sorted list is determined by what it holds. */
  lemma {:induction false} SortedIsUnique(a: seq<string>, b: seq<string>)
    requires Sorted(a) && Sorted(b) && multiset(a) == multiset(b)
    ensures a == b
    decreases |a|
  {
    assert |a| == |multiset(a)| == |multiset(b)| == |b|;
    if a != [] {
      LeastFirst(a, b);
      LeastFirst(b, a);
      LeqAntisymmetric(a[0], b[0]);
      TailOf(a);
      TailOf(b);
      hide Sorted, Leq;
      SortedIsUnique(a[1..], b[1..]);
    }
  }

  lemma TailOf(a: seq<string>)
    requires Sorted(a) && a != []
    ensures Sorted(a[1..]) && a == [a[0]] + a[1..] && multiset(a[1..]) == multiset(a) - multiset{a[0]}
  {
    hide Leq;
    assert a == [a[0]] + a[1..];
  }

  lemma LeastFirst(a: seq<string>, b: seq<string>)
    requires Sorted(a) && multiset(a) == multiset(b) && |a| == |b| > 0
    ensures Leq(a[0], b[0])
  {
    LeqTotal(a[0], a[0]);
    assert b[0] in multiset(b);
    assert b[0] in a;
  }

  // -------------------------------------------------------- sets, in order

  ghost predicate Distinct(s: seq<string>) {
    forall i, j :: 0 <= i < j < |s| ==> s[i] != s[j]
  }

  lemma SortKeepsDistinct(s: seq<string>)
    requires Distinct(s)
    ensures Distinct(Sort(s)) && forall p :: p in Sort(s) <==> p in s
  {
    SortSorts(s);
    var t := Sort(s);
    forall p ensures p in t <==> p in s {
      assert p in multiset(t) <==> p in multiset(s);
    }
    DistinctCounts(s);
    forall i, j | 0 <= i < j < |t| ensures t[i] != t[j] {
      assert multiset(s)[t[i]] <= 1;
      if t[i] == t[j] {
        CountTwice(t, i, j);
      }
    }
  }

  lemma {:induction false} DistinctCounts(s: seq<string>)
    requires Distinct(s)
    ensures forall p :: multiset(s)[p] <= 1
  {
    if s != [] {
      var front, last := s[..|s| - 1], s[|s| - 1];
      DistinctCounts(front);
      assert s == front + [last];
      assert last !in front;
    }
  }

  lemma CountTwice(s: seq<string>, i: nat, j: nat)
    requires i < j < |s| && s[i] == s[j]
    ensures multiset(s)[s[i]] >= 2
  {
    var a, b := s[..j], s[j..];
    assert s == a + b && a[i] == s[i] && b[0] == s[i];
    assert s[i] in multiset(a) && s[i] in multiset(b);
  }

  /** A set of strings, listed in some order. */
  ghost function Listed(keys: set<string>): (s: seq<string>)
    ensures Distinct(s) && forall p :: p in s <==> p in keys
  {
    if keys == {} then []
    else
      var k :| k in keys;
      Listed(keys - {k}) + [k]
  }

  /** A set of strings in order. */
  ghost function SortedKeys(keys: set<string>): (s: seq<string>)
    ensures Sorted(s) && Distinct(s) && forall p :: p in s <==> p in keys
  {
    SortSorts(Listed(keys));
    SortKeepsDistinct(Listed(keys));
    Sort(Listed(keys))
  }

  lemma SortedUnique(s: seq<string>, t: seq<string>)
    requires Sorted(s) && Sorted(t) && Distinct(s) && Distinct(t) && forall p :: p in s <==> p in t
    ensures s == t
  {
    DistinctCounts(s);
    DistinctCounts(t);
    forall p ensures multiset(s)[p] == multiset(t)[p] {
      assert p in multiset(s) <==> p in s;
      assert p in multiset(t) <==> p in t;
    }
    hide Sorted, Distinct;
    assert multiset(s) == multiset(t);
    SortedIsUnique(s, t);
  }

  /** The keys of a map, collected in whatever order it gives them and then sorted. */
  method ListKeys(keys: set<string>) returns (sorted: seq<string>)
    ensures sorted == SortedKeys(keys)
  {
    var listed := [];
    var todo := keys;
    while todo != {}
      invariant todo <= keys && Distinct(listed)
      invariant forall k :: k in listed <==> k in keys && k !in todo
      decreases todo
    {
      var k :| k in todo;
      assert k !in listed;
      listed, todo := listed + [k], todo - {k};
    }
    SortSorts(listed);
    SortKeepsDistinct(listed);
    sorted := Sort(listed);
    SortedUnique(sorted, SortedKeys(keys));
  }
}
