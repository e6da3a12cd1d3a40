/**
 Maximal runs of set positions in a boolean mask. With "not whitespace" as
 the mask this is Python's argument-less `str.split()`; with "non-empty
 cell" it is the runs of placed tiles along a row or column.
 */
module Runs {

  /** The half-open index range `[start, end)`. */
  datatype Span = Span(start: nat, end: nat) {
    function Len(): int { end - start }
  }

  /** `sp` is a maximal run of set positions: non-empty, all set, unset (or the edge) on both sides. */
  predicate IsMaxRun(mask: seq<bool>, sp: Span) {
    && sp.start < sp.end <= |mask|
    && (forall k :: sp.start <= k < sp.end ==> mask[k])
    && (sp.start == 0 || !mask[sp.start - 1])
    && (sp.end == |mask| || !mask[sp.end])
  }

  /** Spans listed left to right, each ending before the next one starts. */
  predicate Ordered(rs: seq<Span>) {
    forall k, l :: 0 <= k < l < |rs| ==> rs[k].end < rs[l].start
  }

  /** Position `p` lies inside one of the spans. */
  predicate Covered(rs: seq<Span>, p: nat) {
    exists k :: 0 <= k < |rs| && rs[k].start <= p < rs[k].end
  }

  /** The first unset position at or after `i`. */
  function RunEnd(mask: seq<bool>, i: nat): (j: nat)
    requires i <= |mask|
    ensures i <= j <= |mask|
    ensures forall k :: i <= k < j ==> mask[k]
    ensures j == |mask| || !mask[j]
    decreases |mask| - i
  {
    if i == |mask| || !mask[i] then i else RunEnd(mask, i + 1)
  }

  /** The first set position at or after `i`. */
  function GapEnd(mask: seq<bool>, i: nat): (j: nat)
    requires i <= |mask|
    ensures i <= j <= |mask|
    ensures forall k :: i <= k < j ==> !mask[k]
    ensures j == |mask| || mask[j]
    decreases |mask| - i
  {
    if i == |mask| || mask[i] then i else GapEnd(mask, i + 1)
  }

  /**
   The maximal runs that start at or after `i`, left to right. `i` must not
   sit in the middle of a run.
   */
  function RunsFrom(mask: seq<bool>, i: nat): (rs: seq<Span>)
    requires i <= |mask|
    requires i == 0 || i == |mask| || !mask[i - 1] || !mask[i]
    ensures forall k :: 0 <= k < |rs| ==> IsMaxRun(mask, rs[k]) && i <= rs[k].start
    ensures Ordered(rs)
    ensures forall p :: i <= p < |mask| && mask[p] ==> Covered(rs, p)
    decreases |mask| - i
  {
    var a := GapEnd(mask, i);
    if a == |mask| then []
    else
      var b := RunEnd(mask, a);
      var rest := RunsFrom(mask, b);
      RunsFromStep(mask, i, a, b, rest);
      [Span(a, b)] + rest
  }

  /** The run found at `a` extends the runs after it to the runs after `i`. */
  lemma RunsFromStep(mask: seq<bool>, i: nat, a: nat, b: nat, rest: seq<Span>)
    requires i <= a < b <= |mask|
    requires i == 0 || !mask[i - 1] || !mask[i]
    requires forall k :: i <= k < a ==> !mask[k]
    requires forall k :: a <= k < b ==> mask[k]
    requires b == |mask| || !mask[b]
    requires forall k :: 0 <= k < |rest| ==> IsMaxRun(mask, rest[k]) && b <= rest[k].start
    requires Ordered(rest)
    requires forall p :: b <= p < |mask| && mask[p] ==> Covered(rest, p)
    ensures var rs := [Span(a, b)] + rest;
      && (forall k :: 0 <= k < |rs| ==> IsMaxRun(mask, rs[k]) && i <= rs[k].start)
      && Ordered(rs)
      && (forall p :: i <= p < |mask| && mask[p] ==> Covered(rs, p))
  {
    var rs := [Span(a, b)] + rest;
    assert IsMaxRun(mask, Span(a, b));
    forall k | 0 <= k < |rest|
      ensures b < rest[k].start
    {
      assert mask[rest[k].start];
    }
    forall k, l | 0 <= k < l < |rs|
      ensures rs[k].end < rs[l].start
    {
      assert rs[l] == rest[l - 1];
      if k > 0 {
        assert rs[k] == rest[k - 1];
      }
    }
    forall p | i <= p < |mask| && mask[p]
      ensures Covered(rs, p)
    {
      if p < b {
        assert rs[0].start <= p < rs[0].end;
      } else {
        var k :| 0 <= k < |rest| && rest[k].start <= p < rest[k].end;
        assert rs[k + 1] == rest[k];
      }
    }
  }

  /** All maximal runs of the mask, left to right. */
  function AllRuns(mask: seq<bool>): (rs: seq<Span>)
    ensures forall k :: 0 <= k < |rs| ==> IsMaxRun(mask, rs[k])
    ensures Ordered(rs)
    ensures forall p :: 0 <= p < |mask| && mask[p] ==> Covered(rs, p)
  {
    RunsFrom(mask, 0)
  }

  /** Two maximal runs that share a position are the same run. */
  lemma MaxRunsMeet(mask: seq<bool>, s: Span, t: Span, p: nat)
    requires IsMaxRun(mask, s) && IsMaxRun(mask, t)
    requires s.start <= p < s.end && t.start <= p < t.end
    ensures s == t
  {
  }

  /** Every maximal run of the mask is listed by `AllRuns`. */
  lemma AllRunsComplete(mask: seq<bool>, sp: Span)
    requires IsMaxRun(mask, sp)
    ensures sp in AllRuns(mask)
  {
    var rs := AllRuns(mask);
    assert mask[sp.start];
    var k :| 0 <= k < |rs| && rs[k].start <= sp.start < rs[k].end;
    MaxRunsMeet(mask, rs[k], sp, sp.start);
  }

  /**
   The maximal runs are determined by the mask: any ordered list of maximal
   runs covering every set position is `AllRuns(mask)`.
   */
  lemma {:induction false} RunsUnique(mask: seq<bool>, rs: seq<Span>, i: nat)
    requires i <= |mask|
    requires i == 0 || i == |mask| || !mask[i - 1] || !mask[i]
    requires forall k :: 0 <= k < |rs| ==> IsMaxRun(mask, rs[k]) && i <= rs[k].start
    requires Ordered(rs)
    requires forall p :: i <= p < |mask| && mask[p] ==> Covered(rs, p)
    ensures rs == RunsFrom(mask, i)
    decreases |mask| - i
  {
    var a := GapEnd(mask, i);
    FirstRun(mask, rs, i);
    if a < |mask| {
      var b := RunEnd(mask, a);
      RestOfRuns(mask, rs, b);
      RunsUnique(mask, rs[1..], b);
      assert RunsFrom(mask, i) == [Span(a, b)] + RunsFrom(mask, b);
      assert rs == [rs[0]] + rs[1..];
    }
  }

  /** A list meeting the hypotheses of `RunsUnique` starts with the first run after `i`, if there is one. */
  lemma FirstRun(mask: seq<bool>, rs: seq<Span>, i: nat)
    requires i <= |mask|
    requires forall k :: 0 <= k < |rs| ==> IsMaxRun(mask, rs[k]) && i <= rs[k].start
    requires Ordered(rs)
    requires forall p :: i <= p < |mask| && mask[p] ==> Covered(rs, p)
    ensures var a := GapEnd(mask, i);
      && (a == |mask| ==> rs == [])
      && (a < |mask| ==> |rs| > 0 && rs[0] == Span(a, RunEnd(mask, a)))
  {
    var a := GapEnd(mask, i);
    forall k | 0 <= k < |rs|
      ensures a <= rs[k].start
    {
      assert mask[rs[k].start];
    }
    if a < |mask| {
      var b := RunEnd(mask, a);
      assert Covered(rs, a);
      var k :| 0 <= k < |rs| && rs[k].start <= a < rs[k].end;
      assert IsMaxRun(mask, Span(a, b));
      MaxRunsMeet(mask, rs[k], Span(a, b), a);
    }
  }

  /** Dropping the first run leaves a list that satisfies the hypotheses from its end on. */
  lemma RestOfRuns(mask: seq<bool>, rs: seq<Span>, b: nat)
    requires |rs| > 0 && rs[0].end == b <= |mask|
    requires forall k :: 0 <= k < |rs| ==> IsMaxRun(mask, rs[k])
    requires Ordered(rs)
    requires forall p :: rs[0].start <= p < |mask| && mask[p] ==> Covered(rs, p)
    ensures forall k :: 0 <= k < |rs[1..]| ==> IsMaxRun(mask, rs[1..][k]) && b <= rs[1..][k].start
    ensures Ordered(rs[1..])
    ensures forall p :: b <= p < |mask| && mask[p] ==> Covered(rs[1..], p)
  {
    var rest := rs[1..];
    forall p | b <= p < |mask| && mask[p]
      ensures Covered(rest, p)
    {
      var l :| 0 <= l < |rs| && rs[l].start <= p < rs[l].end;
      assert l != 0;
      assert rest[l - 1] == rs[l];
    }
    forall l | 0 <= l < |rest|
      ensures IsMaxRun(mask, rest[l]) && b <= rest[l].start
    {
      assert rest[l] == rs[l + 1];
    }
  }

  /** The spans of at least two positions, in their original order. */
  function LongRuns(rs: seq<Span>): (r: seq<Span>)
    ensures forall sp :: sp in r <==> sp in rs && sp.Len() >= 2
    ensures Ordered(rs) ==> Ordered(r)
  {
    if |rs| == 0 then []
    else
      var rest := LongRuns(rs[1..]);
      LongRunsStep(rs, rest);
      if rs[0].Len() >= 2 then [rs[0]] + rest else rest
  }

  lemma LongRunsStep(rs: seq<Span>, rest: seq<Span>)
    requires |rs| > 0
    requires forall sp :: sp in rest <==> sp in rs[1..] && sp.Len() >= 2
    requires Ordered(rs[1..]) ==> Ordered(rest)
    ensures forall sp :: sp in rs <==> sp == rs[0] || sp in rs[1..]
    ensures Ordered(rs) ==> Ordered([rs[0]] + rest) && Ordered(rest)
  {
    assert rs == [rs[0]] + rs[1..];
    if Ordered(rs) {
      assert Ordered(rs[1..]);
      var r := [rs[0]] + rest;
      forall k, l | 0 <= k < l < |r|
        ensures r[k].end < r[l].start
      {
        assert r[l] == rest[l - 1];
        assert r[l] in rest;
        var j :| 0 <= j < |rs[1..]| && rs[1..][j] == r[l];
        assert rs[j + 1] == r[l];
        if k > 0 {
          assert r[k] == rest[k - 1];
        }
      }
    }
  }
}
