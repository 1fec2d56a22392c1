/** The halving retry of internal/buildprompt/orchestrator.go, with the per-reviewer limit of
    internal/buildprompt/steps.go. */
module Retry {
  import opened Numbers
  import opened Strings

  datatype Comment = Comment(createdAt: string, body: string)

  datatype Group = Group(reviewer: string, comments: seq<Comment>, totalComments: nat)

  // --------------------------------------------------- limiting comments

  /** Newest first. */
  ghost predicate NewestFirst(s: seq<Comment>) {
    forall i, j :: 0 <= i < j < |s| ==> Leq(s[j].createdAt, s[i].createdAt)
  }

  function Insert(x: Comment, s: seq<Comment>): seq<Comment> {
    if s == [] || Leq(s[0].createdAt, x.createdAt) then [x] + s else [s[0]] + Insert(x, s[1..])
  }

  /** The comments newest first. `sort.Slice` may leave equally old ones in any order; this is one
      such order. */
  function SortNewest(s: seq<Comment>): seq<Comment> {
    if s == [] then [] else Insert(s[0], SortNewest(s[1..]))
  }

  lemma {:induction false} InsertHolds(x: Comment, s: seq<Comment>)
    ensures multiset(Insert(x, s)) == multiset(s) + multiset{x}
  {
    hide Leq;
    if s != [] {
      assert s == [s[0]] + s[1..];
      InsertHolds(x, s[1..]);
    }
  }

  lemma {:induction false} InsertNewest(x: Comment, s: seq<Comment>)
    requires NewestFirst(s)
    ensures NewestFirst(Insert(x, s))
  {
    hide Leq;
    if s == [] {
      assert [x] == Insert(x, s);
    } else if Leq(s[0].createdAt, x.createdAt) {
      forall j | 0 <= j < |s| ensures Leq(s[j].createdAt, x.createdAt) {
        if j > 0 { LeqTransitive(s[j].createdAt, s[0].createdAt, x.createdAt); }
      }
    } else {
      var rest := s[1..];
      InsertNewest(x, rest);
      InsertHolds(x, rest);
      LeqTotal(x.createdAt, s[0].createdAt);
      forall c | c in Insert(x, rest) ensures Leq(c.createdAt, s[0].createdAt) {
        assert c in multiset(rest) + multiset{x};
      }
      NewestOnTop(s[0], Insert(x, rest));
    }
  }

  lemma NewestOnTop(c: Comment, s: seq<Comment>)
    requires NewestFirst(s) && forall d :: d in s ==> Leq(d.createdAt, c.createdAt)
    ensures NewestFirst([c] + s)
  {
    hide Leq;
  }

  lemma {:induction false} SortNewestSorts(s: seq<Comment>)
    ensures NewestFirst(SortNewest(s)) && multiset(SortNewest(s)) == multiset(s)
  {
    if s != [] {
      SortNewestSorts(s[1..]);
      InsertNewest(s[0], SortNewest(s[1..]));
      InsertHolds(s[0], SortNewest(s[1..]));
      assert s == [s[0]] + s[1..];
    }
  }

  function LimitGroup(g: Group, max: nat): Group {
    if |g.comments| <= max then g
    else Group(g.reviewer, SortNewest(g.comments)[..Min(max, |SortNewest(g.comments)|)], max)
  }

  /** A limited group keeps at most `max` comments of the group, and none it drops is newer than
      one it keeps; it is its reviewer's, and counts what it keeps. */
  lemma LimitKeepsNewest(g: Group, max: nat) returns (dropped: seq<Comment>)
    ensures var kept := LimitGroup(g, max).comments;
            && |kept| == Min(max, |g.comments|) && multiset(kept) + multiset(dropped) == multiset(g.comments)
            && forall k, d :: k in kept && d in dropped ==> Leq(d.createdAt, k.createdAt)
    ensures |g.comments| <= max ==> LimitGroup(g, max) == g
    ensures |g.comments| > max ==> LimitGroup(g, max).reviewer == g.reviewer && LimitGroup(g, max).totalComments == max
  {
    hide SortNewest, Leq, NewestFirst;
    var s := SortNewest(g.comments);
    SortNewestSorts(g.comments);
    LimitGroupSize(g, max);
    dropped := if |g.comments| > max then s[max..] else [];
    if |g.comments| > max {
      assert |s| == |multiset(s)| == |g.comments|;
      assert s == s[..max] + dropped;
      NewestBefore(s, max);
    }
  }

  lemma NewestBefore(s: seq<Comment>, max: nat)
    requires NewestFirst(s) && max <= |s|
    ensures forall k, d :: k in s[..max] && d in s[max..] ==> Leq(d.createdAt, k.createdAt)
  {
    hide Leq;
    forall k, d | k in s[..max] && d in s[max..] ensures Leq(d.createdAt, k.createdAt) {
      var i :| 0 <= i < max && s[i] == k;
      var j :| 0 <= j < |s[max..]| && s[max..][j] == d;
      assert s[max + j] == d;
    }
  }

  method LimitCommentsPerReviewer(groups: seq<Group>, max: int) returns (result: seq<Group>)
    ensures |result| == |groups|
    ensures forall i :: 0 <= i < |groups| ==> result[i] == if max <= 0 then groups[i] else LimitGroup(groups[i], max)
  {
    if max <= 0 {
      return groups;
    }
    result := [];
    for i := 0 to |groups|
      invariant |result| == i && forall k :: 0 <= k < i ==> result[k] == LimitGroup(groups[k], max)
    {
      var g := groups[i];
      if |g.comments| <= max {
        result := result + [g];
        continue;
      }
      SortNewestSorts(g.comments);
      assert |SortNewest(g.comments)| == |multiset(SortNewest(g.comments))| == |g.comments|;
      var limited := SortNewest(g.comments)[..max];
      result := result + [Group(g.reviewer, limited, |limited|)];
    }
  }

  // ------------------------------------------------------------- the retry

  method MaxCommentsPerReviewer(groups: seq<Group>) returns (highest: nat)
    ensures highest == MostComments(groups)
  {
    highest := 0;
    for i := 0 to |groups|
      invariant highest == MostComments(groups[..i])
    {
      assert groups[..i + 1][..i] == groups[..i];
      if groups[i].totalComments > highest {
        highest := groups[i].totalComments;
      }
    }
    assert groups[..|groups|] == groups;
  }

  function MostComments(groups: seq<Group>): (m: nat)
    ensures forall i :: 0 <= i < |groups| ==> groups[i].totalComments <= m
    ensures m > 0 ==> exists i :: 0 <= i < |groups| && groups[i].totalComments == m
  {
    if groups == [] then 0
    else
      var front, g := groups[..|groups| - 1], groups[|groups| - 1];
      var m := MostComments(front);
      assert forall i :: 0 <= i < |front| ==> front[i] == groups[i];
      if g.totalComments > m then g.totalComments else m
  }

  datatype Answer = Analysis(text: string) | TokenLimit | OtherError(message: string)

  function Pow2(k: nat): nat { if k == 0 then 1 else 2 * Pow2(k - 1) }

  /** Each limit is half the one before, rounded up. */
  ghost predicate Halving(tried: seq<nat>) {
    forall i :: 0 <= i < |tried| - 1 ==> tried[i + 1] == (1 + tried[i]) / 2 && tried[i] >= 2
  }

  /** `ask(n, groups)` is the n-th call of the analysis. `tried` are the limits in the order they
      were tried. */
  method AnalyzeWithRetry(groups: seq<Group>, maxComments: int, ask: (nat, seq<Group>) -> Answer)
      returns (answer: Answer, tried: seq<nat>, ghost sent: seq<seq<Group>>)
    ensures |tried| == |sent| > 0 && Halving(tried)
    ensures tried[0] == if maxComments <= 0 then MostComments(groups) else maxComments
    ensures forall i :: 0 <= i < |sent| ==> sent[i] == CutTo(groups, tried[i])
    ensures answer == ask(|sent| - 1, sent[|sent| - 1])
    ensures forall i :: 0 <= i < |sent| - 1 ==> ask(i, sent[i]).TokenLimit?
    ensures answer.TokenLimit? ==> tried[|tried| - 1] <= 1
    ensures Steady(ask) && Monotone(groups, ask) ==> NearlyBest(groups, ask, tried, answer)
  {
    hide MostComments, CutTo, LimitGroup, Monotone, NearlyBest;
    var currentMax: int := maxComments;
    if currentMax <= 0 {
      currentMax := MaxCommentsPerReviewer(groups);
    }
    var currentLimit: int := currentMax;
    tried, sent := [], [];
    while true
      invariant 0 <= currentLimit && |tried| == |sent| && Halving(tried)
      invariant if tried == [] then currentLimit == (if maxComments <= 0 then MostComments(groups) else maxComments)
                else tried[0] == (if maxComments <= 0 then MostComments(groups) else maxComments)
                     && currentLimit == (1 + tried[|tried| - 1]) / 2 && tried[|tried| - 1] >= 2
      invariant forall i :: 0 <= i < |sent| ==> sent[i] == CutTo(groups, tried[i]) && ask(i, sent[i]).TokenLimit?
      decreases currentLimit
    {
      var groupsToAnalyze := groups;
      var most := MaxCommentsPerReviewer(groups);
      if currentLimit < most {
        groupsToAnalyze := LimitCommentsPerReviewer(groups, currentLimit);
      }
      CutToMeans(groups, currentLimit, groupsToAnalyze);
      answer := ask(|tried|, groupsToAnalyze);
      tried, sent := tried + [currentLimit], sent + [groupsToAnalyze];
      if !answer.TokenLimit? {
        NearlyBestRun(groups, ask, tried, answer);
        return;
      }
      currentMax := currentLimit;
      currentLimit := (1 + currentMax) / 2;
      if currentLimit < 1 || currentLimit == currentMax {
        NearlyBestRun(groups, ask, tried, answer);
        return;
      }
    }
  }

  /** What is sent at a limit: everything when no reviewer exceeds it (or it is 0), otherwise every
      group cut to it. */
  function CutTo(groups: seq<Group>, limit: nat): seq<Group> {
    if limit == 0 || limit >= MostComments(groups) then groups
    else seq(|groups|, i requires 0 <= i < |groups| => LimitGroup(groups[i], limit))
  }

  /** What is sent: everything when no reviewer has more comments than the limit, or the limit is 0;
      otherwise every group cut to it. */
  lemma SentIs(groups: seq<Group>, limit: nat)
    ensures var sent := CutTo(groups, limit);
            if limit == 0 || forall i :: 0 <= i < |groups| ==> groups[i].totalComments <= limit then sent == groups
            else |sent| == |groups| && forall i :: 0 <= i < |groups| ==> sent[i] == LimitGroup(groups[i], limit)
  {
    hide LimitGroup;
  }

  lemma CutToMeans(groups: seq<Group>, limit: nat, sent: seq<Group>)
    requires |sent| == |groups|
    requires forall i :: 0 <= i < |groups| ==>
      sent[i] == if limit <= 0 || limit >= MostComments(groups) then groups[i] else LimitGroup(groups[i], limit)
    ensures sent == CutTo(groups, limit)
  {
    hide MostComments, LimitGroup;
  }

  /** Limits strictly decrease. */
  lemma HalvingDecreases(tried: seq<nat>, i: nat)
    requires Halving(tried) && i + 1 < |tried|
    ensures 1 <= tried[i + 1] < tried[i]
  {
  }

  /** Every limit but the last is above 1 and so leaves 2 to the power of its number below the
      starting limit n: there are at most ceil(log2 n) + 1 limits. */
  lemma HalvingIsShort(tried: seq<nat>)
    requires Halving(tried) && |tried| >= 2
    ensures Pow2(|tried| - 2) < tried[0]
  {
    var k := |tried| - 2;
    HalvingFrom(tried, k);
    MulMonotone(Pow2(k), 1, tried[k] - 1);
  }

  lemma {:induction false} HalvingFrom(tried: seq<nat>, k: nat)
    requires Halving(tried) && k < |tried| - 1
    ensures Pow2(k) * (tried[k] - 1) < tried[0]
  {
    if k > 0 {
      HalvingFrom(tried, k - 1);
      MulMonotone(Pow2(k - 1), 2 * (tried[k] - 1), tried[k - 1] - 1);
      Doubled(Pow2(k - 1), tried[k] - 1);
    }
  }

  lemma MulMonotone(p: nat, a: int, b: int)
    requires a <= b
    ensures p * a <= p * b
  {
  }

  lemma Doubled(p: nat, a: int)
    ensures (2 * p) * a == p * (2 * a)
  {
  }

  /** The same text always gets the same answer. */
  ghost predicate Steady(ask: (nat, seq<Group>) -> Answer) {
    forall n, g {:trigger ask(n, g)} :: ask(n, g) == ask(0, g)
  }

  /** The analysis at this limit stays within the token limit. */
  ghost predicate Fits(groups: seq<Group>, ask: (nat, seq<Group>) -> Answer, limit: nat) {
    !ask(0, CutTo(groups, limit)).TokenLimit?
  }

  /** What fits at a limit fits at every smaller one (0 is not smaller: it cuts nothing). */
  ghost predicate Monotone(groups: seq<Group>, ask: (nat, seq<Group>) -> Answer) {
    forall a: nat, b: nat :: 1 <= a <= b && Fits(groups, ask, b) ==> Fits(groups, ask, a)
  }

  /** The limits tried ended well: with one that fits, and less than a factor of two below the
      best up to the starting one; or with none, because none fits. */
  ghost predicate NearlyBest(groups: seq<Group>, ask: (nat, seq<Group>) -> Answer, tried: seq<nat>, answer: Answer)
    requires tried != []
  {
    var last := tried[|tried| - 1];
    if answer.TokenLimit? then forall b: nat :: 1 <= b <= tried[0] ==> !Fits(groups, ask, b)
    else Fits(groups, ask, last)
         && forall b: nat :: 1 <= b <= tried[0] && Fits(groups, ask, b) ==> b < 2 * last
  }

  /** A run of the retry meets what the bound asks for. */
  lemma NearlyBestRun(groups: seq<Group>, ask: (nat, seq<Group>) -> Answer, tried: seq<nat>, answer: Answer)
    requires tried != [] && Halving(tried)
    requires forall i :: 0 <= i < |tried| - 1 ==> ask(i, CutTo(groups, tried[i])).TokenLimit?
    requires answer == ask(|tried| - 1, CutTo(groups, tried[|tried| - 1]))
    requires answer.TokenLimit? ==> tried[|tried| - 1] <= 1
    ensures Steady(ask) && Monotone(groups, ask) ==> NearlyBest(groups, ask, tried, answer)
  {
    if Steady(ask) && Monotone(groups, ask) {
      hide CutTo, Monotone, NearlyBest;
      assert forall i :: 0 <= i < |tried| - 1 ==> !Fits(groups, ask, tried[i]);
      AtLeastHalfOfTheBest(groups, ask, tried, answer);
    }
  }

  lemma AtLeastHalfOfTheBest(groups: seq<Group>, ask: (nat, seq<Group>) -> Answer, tried: seq<nat>, answer: Answer)
    requires tried != [] && Halving(tried) && Steady(ask) && Monotone(groups, ask)
    requires forall i :: 0 <= i < |tried| - 1 ==> !Fits(groups, ask, tried[i])
    requires answer.TokenLimit? <==> !Fits(groups, ask, tried[|tried| - 1])
    requires answer.TokenLimit? ==> tried[|tried| - 1] <= 1
    ensures NearlyBest(groups, ask, tried, answer)
  {
    hide Fits;
    if |tried| > 1 {
      assert forall b: nat :: 1 <= b && Fits(groups, ask, b) ==> b < tried[|tried| - 2];
      assert tried[|tried| - 2] <= 2 * tried[|tried| - 1];
    }
  }

  // ------------------------------------- budgets, for which it is monotone

  function Total(groups: seq<Group>): nat {
    if groups == [] then 0 else Total(groups[..|groups| - 1]) + |groups[|groups| - 1].comments|
  }

  /** An analysis that takes up to `budget` comments. */
  function Budget(budget: nat): (nat, seq<Group>) -> Answer {
    (n: nat, g: seq<Group>) => if Total(g) > budget then TokenLimit else Analysis("")
  }

  lemma {:induction false} TotalMonotone(a: seq<Group>, b: seq<Group>)
    requires |a| == |b| && forall i :: 0 <= i < |a| ==> |a[i].comments| <= |b[i].comments|
    ensures Total(a) <= Total(b)
  {
    if a != [] { TotalMonotone(a[..|a| - 1], b[..|b| - 1]); }
  }

  lemma LimitGroupSize(g: Group, max: nat)
    ensures |LimitGroup(g, max).comments| == Min(max, |g.comments|)
  {
    SortNewestSorts(g.comments);
    assert |SortNewest(g.comments)| == |multiset(SortNewest(g.comments))| == |g.comments|;
  }

  lemma CutToGrows(groups: seq<Group>, a: nat, b: nat)
    requires 1 <= a <= b
    ensures Total(CutTo(groups, a)) <= Total(CutTo(groups, b))
  {
    hide LimitGroup, MostComments, Total;
    forall i | 0 <= i < |groups| ensures |CutTo(groups, a)[i].comments| <= |CutTo(groups, b)[i].comments| {
      LimitGroupSize(groups[i], a);
      LimitGroupSize(groups[i], b);
    }
    TotalMonotone(CutTo(groups, a), CutTo(groups, b));
  }

  /** Whatever the comments and the budget, viability is steady and monotone. */
  lemma BudgetsAreMonotone(groups: seq<Group>, budget: nat)
    ensures Steady(Budget(budget)) && Monotone(groups, Budget(budget))
  {
    hide CutTo;
    forall a: nat, b: nat | 1 <= a <= b && Fits(groups, Budget(budget), b) ensures Fits(groups, Budget(budget), a) {
      CutToGrows(groups, a, b);
    }
  }

  /** Four comments of one reviewer and a budget of three: the limit 4 fails and 2 is taken,
      although 3, which is never tried, fits as well. */
  lemma TheFactorIsReached(c: Comment, reviewer: string) returns (groups: seq<Group>)
    ensures MostComments(groups) == 4
    ensures Steady(Budget(3)) && Monotone(groups, Budget(3)) && Halving([4, 2])
    ensures !Fits(groups, Budget(3), 4) && Fits(groups, Budget(3), 3) && Fits(groups, Budget(3), 2)
  {
    groups := [Group(reviewer, [c, c, c, c], 4)];
    BudgetsAreMonotone(groups, 3);
    assert groups[..0] == [] && MostComments(groups) == 4;
    LimitGroupSize(groups[0], 3);
    TotalOfOne(CutTo(groups, 4));
    TotalOfOne(CutTo(groups, 3));
    assert Fits(groups, Budget(3), 3);
  }

  lemma TotalOfOne(groups: seq<Group>)
    requires |groups| == 1
    ensures Total(groups) == |groups[0].comments|
  {
    assert groups[..0] == [] && Total([]) == 0;
  }
}
