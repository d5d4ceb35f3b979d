/** Retrying a pass with the same report: interruptions across a gap leave no trace in what the lists
    mean, and the next tick repairs a contiguous pass that lost its interval write. */
module Retries {
  import opened Progress
  import opened ProgressRuns

  /** `b` is `a` followed by copies of `x`. */
  ghost predicate Repeated<T>(a: seq<T>, b: seq<T>, x: T)
  {
    a <= b && forall i :: |a| <= i < |b| ==> b[i] == x
  }

  /** Passes with one report, one after the other, each stopped before the last-tick write. */
  function Retried(s: State, info: TickInfo, cuts: seq<nat>): (r: State)
    decreases |cuts|
  {
    if cuts == [] then s
    else Retried(Play(s, Attempt(info, if cuts[0] < 2 then cuts[0] else 2)), info, cuts[1..])
  }

  /** `s1` is `s` with leftovers of passes across a gap. */
  ghost predicate Leftover(s: State, s1: State, last: ProcessedTick, next: ProcessedTick)
    requires last.tick < next.tick
  {
    && s1.last == s.last && s1.lastPerEpoch == s.lastPerEpoch
    && (s1.intervals == s.intervals || s1.intervals == s.intervals[next.epoch := IntervalsOf(s1, next.epoch)])
    && Repeated(IntervalsOf(s, next.epoch), IntervalsOf(s1, next.epoch), Interval(next.tick, next.tick))
    && Repeated(s.skipped, s1.skipped, SkipBetween(last, next))
  }

  lemma RetryLeavesLeftover(s0: State, s: State, info: TickInfo, k: nat)
    requires WellFormed(s0, info) && Due(s0, info) && RoomLeft(s0) && k <= 2
    requires LastProcessed(s0, info).tick + 1 < Next(s0, info).tick
    requires Leftover(s0, s, LastProcessed(s0, info), Next(s0, info))
    ensures Leftover(s0, Play(s, Attempt(info, k)), LastProcessed(s0, info), Next(s0, info))
  {
    GapStep(s, Attempt(info, k));
  }

  lemma {:induction false} RetriesLeaveLeftover(s0: State, s: State, info: TickInfo, cuts: seq<nat>)
    requires WellFormed(s0, info) && Due(s0, info) && RoomLeft(s0)
    requires LastProcessed(s0, info).tick + 1 < Next(s0, info).tick
    requires Leftover(s0, s, LastProcessed(s0, info), Next(s0, info))
    ensures Leftover(s0, Retried(s, info, cuts), LastProcessed(s0, info), Next(s0, info))
    decreases |cuts|
  {
    if cuts != [] {
      var k := if cuts[0] < 2 then cuts[0] else 2;
      RetryLeavesLeftover(s0, s, info, k);
      RetriesLeaveLeftover(s0, Play(s, Attempt(info, k)), info, cuts[1..]);
    }
  }

  /** The same marker, last-tick records, covered ticks and skipped ticks. */
  ghost predicate SameProgress(a: State, b: State)
  {
    && a.last == b.last && a.lastPerEpoch == b.lastPerEpoch
    && (forall e, t :: Covered(a, e, t) <==> Covered(b, e, t))
    && (forall t :: Skipped(a, t) <==> Skipped(b, t))
  }

  /** A step across a gap may be cut after any of its writes and retried any number of times: once the
      marker has moved, the outcome is that of the uninterrupted step. */
  lemma GapStepToleratesCuts(s: State, info: TickInfo, cuts: seq<nat>, writes: nat)
    requires WellFormed(s, info) && Due(s, info) && RoomLeft(s) && writes >= 3
    requires Next(s, info).tick > LastProcessed(s, info).tick + 1
    ensures SameProgress(Play(Retried(s, info, cuts), Attempt(info, writes)), Step(s, info))
  {
    var last, next := LastProcessed(s, info), Next(s, info);
    var s1 := Retried(s, info, cuts);
    NextFollows(s, info);
    RetriesLeaveLeftover(s, s, info, cuts);
    GapStep(s1, Attempt(info, writes));
    GapStep(s, Attempt(info, ALL_WRITES));
    PlayIsStep(s, info);
    LeftoverSettles(s, s1, Play(s1, Attempt(info, writes)), Step(s, info), last, next);
  }

  lemma LeftoverSettles(s: State, s1: State, a: State, b: State, last: ProcessedTick, next: ProcessedTick)
    requires last.tick < next.tick && Leftover(s, s1, last, next)
    requires a.last == b.last && a.lastPerEpoch == b.lastPerEpoch
    requires a.intervals == Appended(s1, next) && b.intervals == Appended(s, next)
    requires a.skipped == s1.skipped + [SkipBetween(last, next)] && b.skipped == s.skipped + [SkipBetween(last, next)]
    ensures SameProgress(a, b)
  {
    var iv := Interval(next.tick, next.tick);
    var old', x, y := IntervalsOf(s, next.epoch), a.intervals[next.epoch], b.intervals[next.epoch];
    forall t ensures InIntervals(x, t) <==> InIntervals(y, t) {
      RepeatedCoverage(old', x, iv, t);
      RepeatedCoverage(old', y, iv, t);
    }
    forall d, t ensures Covered(a, d, t) <==> Covered(b, d, t) {
      assert d != next.epoch ==> Covered(a, d, t) == Covered(s, d, t) == Covered(b, d, t);
    }
    forall t ensures Skipped(a, t) <==> Skipped(b, t) {
      RepeatedSkips(s, a, SkipBetween(last, next), t);
      RepeatedSkips(s, b, SkipBetween(last, next), t);
    }
  }

  lemma RepeatedCoverage(a: seq<Interval>, b: seq<Interval>, x: Interval, t: int)
    requires Repeated(a, b, x) && |a| < |b|
    ensures InIntervals(b, t) <==> InIntervals(a, t) || x.first <= t <= x.last
  {
    if InIntervals(a, t) {
      var i :| 0 <= i < |a| && a[i].first <= t <= a[i].last;
      assert b[i] == a[i];
    }
    assert b[|a|] == x;
  }

  lemma RepeatedSkips(s: State, s': State, x: Skip, t: int)
    requires Repeated(s.skipped, s'.skipped, x) && |s.skipped| < |s'.skipped|
    ensures Skipped(s', t) <==> Skipped(s, t) || x.start <= t <= x.end
  {
    if Skipped(s, t) {
      var i :| 0 <= i < |s.skipped| && s.skipped[i].start <= t <= s.skipped[i].end;
      assert s'.skipped[i] == s.skipped[i];
    }
    assert s'.skipped[|s.skipped|] == x;
  }

  /** A contiguous step in an open epoch that lost its interval write is repaired, to the same state,
      by the next contiguous step in that epoch. */
  lemma NextTickRepairs(s: State, first: TickInfo, second: TickInfo)
    requires RoomLeft(s) && s.last.Some? && s.last.value.epoch in s.intervals && s.intervals[s.last.value.epoch] != []
    requires WellFormed(s, first) && Due(s, first)
    requires Next(s, first) == ProcessedTick(s.last.value.tick + 1, s.last.value.epoch)
    requires var s1 := Play(s, Attempt(first, 1));
             && WellFormed(s1, second) && Due(s1, second) && RoomLeft(s1)
             && Next(s1, second) == ProcessedTick(s.last.value.tick + 2, s.last.value.epoch)
    ensures Step(Play(s, Attempt(first, 1)), second) == Step(Step(s, first), second)
  {
    ContiguousStep(s, Attempt(first, 1));
    ContiguousStep(s, Attempt(first, ALL_WRITES));
    PlayIsStep(s, first);
    var s1, s2 := Play(s, Attempt(first, 1)), Step(s, first);
    assert LastProcessed(s1, second) == LastProcessed(s2, second);
    ContiguousStep(s1, Attempt(second, ALL_WRITES));
    ContiguousStep(s2, Attempt(second, ALL_WRITES));
    PlayIsStep(s1, second);
    PlayIsStep(s2, second);
    var e := s.last.value.epoch;
    assert Extended(Extended(s.intervals[e], s.last.value.tick + 1), s.last.value.tick + 2)
           == Extended(s.intervals[e], s.last.value.tick + 2);
  }
}
