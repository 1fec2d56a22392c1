/** Counting stalls and backing off, over any pattern of connections: which of them failed and
    which brought a frame. After internal/circleci/client.go:357-388. */
module StallCount {

  const MAX_STREAM_STALLS: nat := 5
  const STREAM_RETRY_BASE: nat := 500 // milliseconds

  datatype Pattern = Pattern(failed: nat -> bool, framed: nat -> bool) {

    /** Connection k failed and brought no frame. */
    predicate Stalled(k: nat) { failed(k) && !framed(k) }

    /** The first connection after the last one before k that brought a frame. */
    function SinceFrame(k: nat): (j: nat)
      ensures j <= k && (j > 0 ==> framed(j - 1)) && forall i :: j <= i < k ==> !framed(i)
    {
      if k == 0 || framed(k - 1) then k else SinceFrame(k - 1)
    }

    /** How many of the connections i, ..., j - 1 failed without a frame. */
    function StalledIn(i: nat, j: nat): nat
      requires i <= j
      decreases j
    {
      if i == j then 0 else StalledIn(i, j - 1) + (if Stalled(j - 1) then 1 else 0)
    }

    /** The stall count the source means: frameless failures since the last frame. */
    function Stalls(k: nat): nat { StalledIn(SinceFrame(k), k) }

    /** Milliseconds slept between connection k and the next one. */
    function Delay(k: nat): nat {
      if !Stalled(k) then 0
      else if Stalls(k + 1) < 10 then Stalls(k + 1) * STREAM_RETRY_BASE
      else 10 * STREAM_RETRY_BASE
    }

    function DelayIn(i: nat, j: nat): nat
      requires i <= j
      decreases j
    {
      if i == j then 0 else DelayIn(i, j - 1) + Delay(j - 1)
    }

    /** Connection k is one stall too many. */
    predicate TooMany(k: nat) { Stalled(k) && Stalls(k + 1) > MAX_STREAM_STALLS }
  }

  /** A frame resets the count, a frameless failure raises it, and a clean empty connection does
      neither. */
  lemma StallStep(p: Pattern, k: nat)
    ensures p.Stalls(k + 1) == if p.framed(k) then 0 else p.Stalls(k) + (if p.Stalled(k) then 1 else 0)
  {
  }

  lemma {:induction false} StallsBounded(p: Pattern, k: nat)
    requires forall j :: 0 <= j < k ==> !p.TooMany(j)
    ensures p.Stalls(k) <= MAX_STREAM_STALLS
  {
    if k > 0 {
      StallsBounded(p, k - 1);
      StallStep(p, k - 1);
      assert !p.TooMany(k - 1);
    }
  }

  /** No six failures follow one another without a frame in between, whatever clean empty
      connections are mixed in. */
  ghost predicate NeverSix(p: Pattern, n: nat) {
    forall i, j :: 0 <= i <= j <= n && (forall k :: i <= k < j ==> !p.framed(k)) ==>
      p.StalledIn(i, j) <= MAX_STREAM_STALLS
  }

  lemma {:induction false} FewerInLess(p: Pattern, h: nat, i: nat, j: nat)
    requires h <= i <= j
    ensures p.StalledIn(i, j) <= p.StalledIn(h, j)
    decreases j
  {
    if i < j { FewerInLess(p, h, i, j - 1); }
  }

  /** The counter never runs over exactly when no six failures do. */
  lemma NeverSixIff(p: Pattern, n: nat)
    ensures (forall k :: 0 <= k < n ==> !p.TooMany(k)) <==> NeverSix(p, n)
  {
    if forall k :: 0 <= k < n ==> !p.TooMany(k) {
      forall i, j | 0 <= i <= j <= n && forall k :: i <= k < j ==> !p.framed(k)
        ensures p.StalledIn(i, j) <= MAX_STREAM_STALLS
      {
        StallsBounded(p, j);
        var h := p.SinceFrame(j);
        FewerInLess(p, h, i, j);
      }
    }
    if NeverSix(p, n) {
      forall k | 0 <= k < n ensures !p.TooMany(k) {
        assert p.Stalls(k + 1) <= MAX_STREAM_STALLS;
      }
    }
  }

  // ------------------------------------------------------------- backing off

  /** 1 + 2 + ... + s. */
  function Triangle(s: nat): nat {
    if s == 0 then 0 else Triangle(s - 1) + s
  }

  lemma TriangleBounded(s: nat)
    requires s <= 5
    ensures Triangle(s) <= 15
  {
    assert Triangle(2) == 3 && Triangle(4) == 10;
  }

  lemma BackoffStep(p: Pattern, k: nat)
    requires p.Stalls(k + 1) <= 5
    ensures p.Delay(k) <= 5 * STREAM_RETRY_BASE
    ensures p.framed(k) ==> p.DelayIn(p.SinceFrame(k + 1), k + 1) == 0 == p.Stalls(k + 1)
    ensures var rise := Triangle(p.Stalls(k + 1)) - Triangle(p.Stalls(k));
            var slept := p.DelayIn(p.SinceFrame(k), k);
            !p.framed(k) ==> p.DelayIn(p.SinceFrame(k + 1), k + 1) == slept + STREAM_RETRY_BASE * rise
  {
    StallStep(p, k);
  }

  /** While reading goes on, the waits since the last frame are 1, 2, ..., s times the base
      for s stalls: never capped, and at most 15 times the base in all. */
  lemma {:induction false} BackoffBounded(p: Pattern, k: nat)
    requires forall j :: 0 <= j < k ==> !p.TooMany(j)
    ensures forall j :: 0 <= j < k ==> p.Delay(j) <= 5 * STREAM_RETRY_BASE
    ensures p.DelayIn(p.SinceFrame(k), k) == STREAM_RETRY_BASE * Triangle(p.Stalls(k))
    ensures p.DelayIn(p.SinceFrame(k), k) <= 15 * STREAM_RETRY_BASE
  {
    hide Pattern.TooMany, Pattern.Delay, Pattern.Stalls, Triangle;
    StallsBounded(p, k);
    TriangleBounded(p.Stalls(k));
    NoStallYet(p);
    if k > 0 {
      hide Pattern.DelayIn, Pattern.SinceFrame;
      BackoffBounded(p, k - 1);
      BackoffStep(p, k - 1);
    }
  }

  lemma NoStallYet(p: Pattern)
    ensures p.Stalls(0) == 0 && Triangle(0) == 0
  {
  }}
