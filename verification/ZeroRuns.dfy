/** Which zero groups of an IPv6 address are elided in its text form (section 2.2 of RFC 4291): the
  * scan over the groups and the run it settles on. */
module ZeroRuns {
  import opened Protocol

  type Group = uint16

  /** Groups `first` to `last` inclusive, or nothing. */
  datatype Run = NoRun | Run(first: nat, last: nat)

  /** Start of the stretch of zeros that ends before `i`; `i` itself if there is none. */
  function ZeroStart(g: seq<Group>, i: nat): (s: nat)
    requires i <= |g|
    ensures s <= i && (forall k :: s <= k < i ==> g[k] == 0) && (s > 0 ==> s == i || g[s - 1] != 0)
    ensures i > 0 && g[i - 1] != 0 ==> s == i
  {
    if i == 0 || g[i - 1] != 0 then i else ZeroStart(g, i - 1)
  }

  /** The candidate replaces the best so far if its length exceeds the distance between the ends
    * of the best, so of two equally long stretches the later one wins. */
  function Better(best: Run, candidate: Run): Run
    requires candidate.Run? && candidate.first <= candidate.last
  {
    var length := candidate.last + 1 - candidate.first;
    var distance := if best.Run? then best.last - best.first else 0;
    if length > distance then candidate else best
  }

  /** The best among the stretches that a non-zero group before `i` has ended. */
  function Ended(g: seq<Group>, i: nat): Run
    requires i <= |g|
  {
    if i == 0 then NoRun
    else
      var before, s := Ended(g, i - 1), ZeroStart(g, i - 1);
      if g[i - 1] != 0 && s < i - 1 then Better(before, Run(s, i - 2)) else before
  }

  function Elided(g: seq<Group>): Run {
    var s := ZeroStart(g, |g|);
    if s < |g| then Better(Ended(g, |g|), Run(s, |g| - 1)) else Ended(g, |g|)
  }

  ghost predicate Zeros(g: seq<Group>, i: nat, j: nat) {
    i <= j < |g| && forall k :: i <= k <= j ==> g[k] == 0
  }

  /** `r` is the last of the longest stretches of zeros that end before `i`. */
  ghost predicate LastLongest(g: seq<Group>, i: nat, r: Run)
    requires i <= |g|
  {
    match r
    case NoRun => forall k :: 0 <= k < i ==> g[k] != 0
    case Run(first, last) =>
      && last < i && Zeros(g, first, last)
      && forall a: nat, b: nat :: b < i && Zeros(g, a, b) ==>
           b - a <= last - first && (b - a == last - first ==> b <= last)
  }

  lemma {:induction false} EndedLongest(g: seq<Group>, i: nat)
    requires i <= |g|
    ensures LastLongest(g, ZeroStart(g, i), Ended(g, i))
  {
    if i > 0 {
      EndedLongest(g, i - 1);
      var s, before := ZeroStart(g, i - 1), Ended(g, i - 1);
      if g[i - 1] != 0 {
        if s < i - 1 {
          CandidateLongest(g, s, i - 1, before);
        }
        forall a: nat, b: nat | b < i && Zeros(g, a, b) ensures b < i - 1 {
        }
      }
    }
  }

  /** Adding the stretch of zeros from `s` up to `i`. */
  lemma CandidateLongest(g: seq<Group>, s: nat, i: nat, before: Run)
    requires s < i <= |g| && (forall k :: s <= k < i ==> g[k] == 0) && (s > 0 ==> g[s - 1] != 0)
    requires LastLongest(g, s, before)
    ensures LastLongest(g, i, Better(before, Run(s, i - 1)))
  {
    assert Zeros(g, s, i - 1);
    forall a: nat, b: nat | b < i && Zeros(g, a, b) ensures g[b] == 0 && (b < s || a >= s) {
    }
  }

  /** What is elided is the last of the longest stretches of zero groups; nothing is elided only
    * if no group is zero. */
  lemma ElidedLongest(g: seq<Group>)
    ensures LastLongest(g, |g|, Elided(g))
  {
    EndedLongest(g, |g|);
    var s := ZeroStart(g, |g|);
    if s < |g| {
      CandidateLongest(g, s, |g|, Ended(g, |g|));
    }
  }

  /** The scan of the groups: the candidate grows while zeros last and competes when they end. */
  method FindElided(g: seq<Group>) returns (sub: Run)
    ensures sub == Elided(g)
  {
    sub := NoRun;
    var inZero, candidateStart, candidateEnd := false, 0, 0;
    var it := 0;
    while it < |g|
      invariant it <= |g| && sub == Ended(g, it)
      invariant inZero <==> ZeroStart(g, it) < it
      invariant inZero ==> candidateStart == ZeroStart(g, it) && candidateEnd == it
    {
      if g[it] == 0 {
        if !inZero {
          candidateStart, candidateEnd, inZero := it, it, true;
        }
        candidateEnd := candidateEnd + 1;
      } else if inZero {
        sub := Better(sub, Run(candidateStart, candidateEnd - 1));
        inZero := false;
      }
      it := it + 1;
    }
    if inZero {
      sub := Better(sub, Run(candidateStart, candidateEnd - 1));
    }
  }
}
