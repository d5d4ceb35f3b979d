/** Runs without interruptions: the stored lists are exact and without redundancy. */
module CleanRuns {
  import opened Bytes
  import opened Wrappers
  import opened Progress
  import opened ProgressRuns
  import opened RunInvariant

  /** The ticks of an interval. */
  function Ticks(first: uint32, last: uint32): (r: seq<uint32>)
    requires first <= last
    ensures |r| == last + 1 - first && forall i :: 0 <= i < |r| ==> r[i] == first + i
  {
    seq(last + 1 - first, i requires 0 <= i < last + 1 - first => first + i)
  }

  /** The ticks of a list of intervals, interval by interval. */
  function Expand(ivs: seq<Interval>): (r: seq<uint32>)
  {
    if ivs == [] then []
    else
      var iv := ivs[|ivs| - 1];
      Expand(ivs[..|ivs| - 1]) + if iv.first <= iv.last then Ticks(iv.first, iv.last) else []
  }

  /** The ticks processed in an epoch, oldest first. */
  function TicksOf(h: History, epoch: int): (r: seq<uint32>)
  {
    if h == [] then []
    else TicksOf(h[..|h| - 1], epoch) + if h[|h| - 1].epoch == epoch then [h[|h| - 1].tick] else []
  }

  lemma {:induction false} ExpandMembers(ivs: seq<Interval>, t: int)
    ensures t in Expand(ivs) <==> InIntervals(ivs, t)
  {
    if ivs != [] {
      var init, iv := ivs[..|ivs| - 1], ivs[|ivs| - 1];
      ExpandMembers(init, t);
      if InIntervals(init, t) {
        var i :| 0 <= i < |init| && init[i].first <= t <= init[i].last;
        assert ivs[i] == init[i];
      }
      if iv.first <= iv.last {
        assert t in Ticks(iv.first, iv.last) <==> iv.first <= t <= iv.last by {
          if iv.first <= t <= iv.last {
            assert Ticks(iv.first, iv.last)[t - iv.first] == t;
          }
        }
      }
    }
  }

  /** Within an epoch, a new interval starts only after a gap. */
  ghost predicate Separated(ivs: seq<Interval>)
  {
    forall i, j :: 0 <= i < j < |ivs| ==> ivs[i].last + 1 < ivs[j].first
  }

  ghost predicate SkipsSeparated(sks: seq<Skip>)
  {
    && (forall i :: 0 <= i < |sks| ==> 1 <= sks[i].start <= sks[i].end)
    && (forall i, j :: 0 <= i < j < |sks| ==> sks[i].end + 1 < sks[j].start)
  }

  /** Last-tick records are the ends of the newest intervals. */
  ghost predicate LastTicksOk(s: State)
  {
    && s.lastPerEpoch.Keys == s.intervals.Keys
    && (forall e :: e in s.intervals ==> s.intervals[e] != [] && s.lastPerEpoch[e] == End(s.intervals[e]))
  }

  ghost predicate ListsSeparated(s: State)
  {
    forall e :: e in s.intervals ==> Separated(s.intervals[e])
  }

  ghost predicate SkipsBelowMarker(s: State, h: History)
  {
    && SkipsSeparated(s.skipped)
    && (forall i :: 0 <= i < |s.skipped| ==> h != [] && s.skipped[i].end < h[|h| - 1].tick)
  }

  ghost predicate SkipsUnprocessed(s: State, h: History)
  {
    forall t :: Skipped(s, t) ==> !Processed(h, t)
  }

  /** Expanding an epoch's intervals gives the ticks processed in that epoch, in order. */
  ghost predicate ExpansionOk(s: State, h: History)
  {
    forall e: uint32 :: Expand(IntervalsOf(s, e)) == TicksOf(h, e)
  }

  ghost predicate Exact(s: State, h: History)
  {
    && ListsSeparated(s) && LastTicksOk(s) && SkipsBelowMarker(s, h) && SkipsUnprocessed(s, h) && ExpansionOk(s, h)
    && (if h == [] then s == EMPTY else h[|h| - 1].epoch in s.intervals)
  }

  predicate Clean(e: Attempt)
  {
    e.writes >= ALL_WRITES
  }

  lemma ExpandSnoc(ivs: seq<Interval>, iv: Interval)
    requires iv.first <= iv.last
    ensures Expand(ivs + [iv]) == Expand(ivs) + Ticks(iv.first, iv.last)
  {
    assert (ivs + [iv])[..|ivs|] == ivs;
  }

  lemma ExpandExtended(ivs: seq<Interval>, tick: uint32)
    requires ListOk(ivs) && End(ivs) + 1 == tick
    ensures Expand(Extended(ivs, tick)) == Expand(ivs) + [tick]
  {
    var init, iv := ivs[..|ivs| - 1], ivs[|ivs| - 1];
    assert ivs == init + [iv];
    assert Extended(ivs, tick) == init + [Interval(iv.first, tick)];
    ExpandSnoc(init, iv);
    ExpandSnoc(init, Interval(iv.first, tick));
    assert Ticks(iv.first, tick) == Ticks(iv.first, iv.last) + [tick];
  }

  lemma TicksOfSnoc(h: History, p: ProcessedTick, epoch: int)
    ensures TicksOf(h + [p], epoch) == TicksOf(h, epoch) + if p.epoch == epoch then [p.tick] else []
  {
    assert (h + [p])[..|h|] == h;
  }

  /** An uninterrupted step loses nothing and leaves nothing pending. */
  lemma CleanFate(s: State, h: History, e: Attempt)
    requires Inv(s, h, NO_LOSS) && Clean(e)
    ensures NextFate(s, NO_LOSS, e) == NO_LOSS
    ensures Marks(s, e) <==> Due(s, e.info)
  {}

  lemma ExpansionAfter(s: State, s': State, h: History, next: ProcessedTick, ivs: seq<Interval>)
    requires ExpansionOk(s, h) && s'.intervals == s.intervals[next.epoch := ivs]
    requires Expand(ivs) == Expand(IntervalsOf(s, next.epoch)) + [next.tick]
    ensures ExpansionOk(s', h + [next])
  {
    forall d: uint32 ensures Expand(IntervalsOf(s', d)) == TicksOf(h + [next], d) {
      TicksOfSnoc(h, next, d);
      if d != next.epoch {
        SameExpansion(s, s', h, d);
        assert TicksOf(h, d) + [] == TicksOf(h, d);
      } else {
        assert IntervalsOf(s', d) == ivs;
        assert Expand(IntervalsOf(s, d)) == TicksOf(h, d);
      }
    }
  }

  lemma SameExpansion(s: State, s': State, h: History, d: uint32)
    requires ExpansionOk(s, h) && IntervalsOf(s', d) == IntervalsOf(s, d)
    ensures Expand(IntervalsOf(s', d)) == TicksOf(h, d)
  {}

  lemma ExpandOne(tick: uint32)
    ensures Expand([Interval(tick, tick)]) == [tick]
  {
    ExpandSnoc([], Interval(tick, tick));
    assert [] + [Interval(tick, tick)] == [Interval(tick, tick)];
  }

  /** Replacing one epoch's list and record keeps lists separated and records accurate. */
  lemma ListsAfter(s: State, s': State, next: ProcessedTick, ivs: seq<Interval>)
    requires ListsSeparated(s) && LastTicksOk(s)
    requires s'.intervals == s.intervals[next.epoch := ivs]
    requires s'.lastPerEpoch == s.lastPerEpoch[next.epoch := next.tick]
    requires Separated(ivs) && ivs != [] && End(ivs) == next.tick
    ensures ListsSeparated(s') && LastTicksOk(s')
  {}

  /** What a new tick finds in its epoch: nothing, or intervals that end below it. */
  lemma BeforeNext(s: State, h: History, info: TickInfo)
    requires Inv(s, h, NO_LOSS) && Exact(s, h) && WellFormed(s, info) && Due(s, info)
    ensures var last, next := LastProcessed(s, info), Next(s, info);
            var ivs := IntervalsOf(s, next.epoch);
            && RoomLeft(s) && HistoryOk(h + [next])
            && last.tick < next.tick && last.epoch <= next.epoch
            && last.tick == (if h == [] then 0 else h[|h| - 1].tick)
            && Separated(ivs)
            && (ivs != [] ==> ListOk(ivs) && h != [] && next.epoch == h[|h| - 1].epoch && End(ivs) == last.tick)
            && (forall i :: 0 <= i < |ivs| ==> ivs[i].last <= last.tick)
  {
    HistoryGrows(s, h, info);
    NextFollows(s, info);
    var next := Next(s, info);
    var ivs := IntervalsOf(s, next.epoch);
    if ivs != [] {
      assert next.epoch in s.intervals;
      EndIsMarker(s, h);
    }
    forall i | 0 <= i < |ivs| ensures ivs[i].last <= LastProcessed(s, info).tick {
      IntervalsBelowMarker(s, h, NO_LOSS, next.epoch, i);
    }
  }

  lemma ContiguousKeepsExact(s: State, h: History, e: Attempt)
    requires Inv(s, h, NO_LOSS) && Exact(s, h) && WellFormed(s, e.info) && Due(s, e.info) && Clean(e)
    requires Next(s, e.info).tick == LastProcessed(s, e.info).tick + 1
    ensures Exact(Play(s, e), h + [Next(s, e.info)])
  {
    BeforeNext(s, h, e.info);
    ContiguousStep(s, e);
    ExtendKeepsExact(s, Play(s, e), h, Next(s, e.info));
  }

  lemma ExtendKeepsExact(s: State, s': State, h: History, next: ProcessedTick)
    requires Exact(s, h) && (h != [] ==> h[|h| - 1].tick < next.tick)
    requires var ivs := IntervalsOf(s, next.epoch);
             && Separated(ivs) && (ivs != [] ==> ListOk(ivs) && End(ivs) + 1 == next.tick)
             && s'.intervals == s.intervals[next.epoch := Extended(ivs, next.tick)]
    requires s'.lastPerEpoch == s.lastPerEpoch[next.epoch := next.tick] && s'.skipped == s.skipped
    ensures Exact(s', h + [next])
  {
    var ivs := IntervalsOf(s, next.epoch);
    if ivs != [] {
      ExpandExtended(ivs, next.tick);
    } else {
      ExpandOne(next.tick);
    }
    ExpansionAfter(s, s', h, next, Extended(ivs, next.tick));
    ListsAfter(s, s', next, Extended(ivs, next.tick));
    StillUnprocessed(s, s', h, next);
  }

  lemma StillUnprocessed(s: State, s': State, h: History, next: ProcessedTick)
    requires SkipsBelowMarker(s, h) && SkipsUnprocessed(s, h) && s'.skipped == s.skipped
    requires h != [] ==> h[|h| - 1].tick < next.tick
    ensures SkipsUnprocessed(s', h + [next])
  {
    ProcessedSnoc(h, next);
    forall t | Skipped(s', t) ensures Skipped(s, t) && t != next.tick {}
  }

  /** In an exact state the newest interval ends at the marker. */
  lemma EndIsMarker(s: State, h: History)
    requires Inv(s, h, NO_LOSS) && Exact(s, h) && h != []
    ensures h[|h| - 1].epoch in s.intervals && s.intervals[h[|h| - 1].epoch] != []
    ensures End(s.intervals[h[|h| - 1].epoch]) == h[|h| - 1].tick
  {
    var last := h[|h| - 1];
    var ivs := s.intervals[last.epoch];
    IntervalsBelowMarker(s, h, NO_LOSS, last.epoch, |ivs| - 1);
    NothingPending(s, h);
  }

  lemma NothingPending(s: State, h: History)
    requires FateOk(s, h, NO_LOSS) && h != [] && h[|h| - 1].epoch in s.intervals && s.intervals[h[|h| - 1].epoch] != []
    ensures End(s.intervals[h[|h| - 1].epoch]) >= h[|h| - 1].tick
  {
    assert !Ahead(h, NO_LOSS, h[|h| - 1].epoch);
    assert h[|h| - 1].tick !in NO_LOSS.pending;
  }

  lemma GapKeepsExact(s: State, h: History, e: Attempt)
    requires Inv(s, h, NO_LOSS) && Exact(s, h) && WellFormed(s, e.info) && Due(s, e.info) && Clean(e)
    requires Next(s, e.info).tick > LastProcessed(s, e.info).tick + 1
    ensures Exact(Play(s, e), h + [Next(s, e.info)])
  {
    BeforeNext(s, h, e.info);
    GapStep(s, e);
    AppendKeepsExact(s, Play(s, e), h, LastProcessed(s, e.info), Next(s, e.info));
  }

  lemma AppendKeepsExact(s: State, s': State, h: History, last: ProcessedTick, next: ProcessedTick)
    requires Exact(s, h) && HistoryOk(h) && last.tick + 1 < next.tick
    requires last.tick == if h == [] then 0 else h[|h| - 1].tick
    requires var ivs := IntervalsOf(s, next.epoch);
             && Separated(ivs) && (forall i :: 0 <= i < |ivs| ==> ivs[i].last <= last.tick)
             && s'.intervals == s.intervals[next.epoch := ivs + [Interval(next.tick, next.tick)]]
    requires s'.lastPerEpoch == s.lastPerEpoch[next.epoch := next.tick]
    requires s'.skipped == s.skipped + [SkipBetween(last, next)]
    ensures Exact(s', h + [next])
  {
    var iv := Interval(next.tick, next.tick);
    var ivs := IntervalsOf(s, next.epoch);
    AppendExpansion(s, s', h, next);
    SeparatedSnoc(ivs, iv);
    ListsAfter(s, s', next, ivs + [iv]);
    SkipsAfter(s, s', h, last, next);
    GapUnprocessed(s, s', h, last, next);
  }

  lemma GapUnprocessed(s: State, s': State, h: History, last: ProcessedTick, next: ProcessedTick)
    requires SkipsBelowMarker(s, h) && SkipsUnprocessed(s, h) && HistoryOk(h) && last.tick + 1 < next.tick
    requires last.tick == LastOf(h) && s'.skipped == s.skipped + [SkipBetween(last, next)]
    ensures SkipsUnprocessed(s', h + [next])
  {
    ProcessedSnoc(h, next);
    forall t | Skipped(s', t) ensures !Processed(h, t) && t < next.tick {
      SkippedWithNew(s, s', last, next, t);
    }
  }

  lemma AppendExpansion(s: State, s': State, h: History, next: ProcessedTick)
    requires ExpansionOk(s, h)
    requires s'.intervals == s.intervals[next.epoch := IntervalsOf(s, next.epoch) + [Interval(next.tick, next.tick)]]
    ensures ExpansionOk(s', h + [next])
  {
    var iv := Interval(next.tick, next.tick);
    var ivs := IntervalsOf(s, next.epoch);
    ExpandSnoc(ivs, iv);
    assert Ticks(next.tick, next.tick) == [next.tick];
    ExpansionAfter(s, s', h, next, ivs + [iv]);
  }

  lemma SkipsAfter(s: State, s': State, h: History, last: ProcessedTick, next: ProcessedTick)
    requires SkipsBelowMarker(s, h) && last.tick + 1 < next.tick
    requires last.tick == if h == [] then 0 else h[|h| - 1].tick
    requires s'.skipped == s.skipped + [SkipBetween(last, next)]
    ensures SkipsBelowMarker(s', h + [next])
  {
    SkipsStaySeparated(s.skipped, SkipBetween(last, next), last.tick);
  }

  lemma SeparatedSnoc(ivs: seq<Interval>, iv: Interval)
    requires Separated(ivs) && forall i :: 0 <= i < |ivs| ==> ivs[i].last + 1 < iv.first
    ensures Separated(ivs + [iv])
  {}

  lemma SkipsStaySeparated(sks: seq<Skip>, sk: Skip, last: uint32)
    requires SkipsSeparated(sks) && sk.start == last + 1 <= sk.end
    requires forall i :: 0 <= i < |sks| ==> sks[i].end < last
    ensures SkipsSeparated(sks + [sk])
  {}

  lemma CleanStepKeepsExact(s: State, h: History, e: Attempt)
    requires Inv(s, h, NO_LOSS) && Exact(s, h) && WellFormed(s, e.info) && Clean(e)
    ensures Exact(Play(s, e), h + (if Due(s, e.info) then [Next(s, e.info)] else []))
    ensures Inv(Play(s, e), h + (if Due(s, e.info) then [Next(s, e.info)] else []), NO_LOSS)
  {
    CleanStepKeepsInv(s, h, e);
    if Due(s, e.info) {
      DueStepKeepsExact(s, h, e);
    } else {
      IdleStep(s, h, e);
    }
  }

  lemma IdleStep(s: State, h: History, e: Attempt)
    requires !Due(s, e.info)
    ensures Play(s, e) == s && h + [] == h
  {}

  lemma CleanStepKeepsInv(s: State, h: History, e: Attempt)
    requires Inv(s, h, NO_LOSS) && WellFormed(s, e.info) && Clean(e)
    ensures Inv(Play(s, e), h + (if Due(s, e.info) then [Next(s, e.info)] else []), NO_LOSS)
  {
    CleanFate(s, h, e);
    if Due(s, e.info) {
      NeverBehind(s, h, NO_LOSS, e.info);
      PlayKeepsInv(s, h, NO_LOSS, e);
    } else {
      assert h + [] == h;
    }
  }

  lemma DueStepKeepsExact(s: State, h: History, e: Attempt)
    requires Inv(s, h, NO_LOSS) && Exact(s, h) && WellFormed(s, e.info) && Due(s, e.info) && Clean(e)
    ensures Exact(Play(s, e), h + [Next(s, e.info)])
  {
    HistoryGrows(s, h, e.info);
    NextFollows(s, e.info);
    if Next(s, e.info).tick == LastProcessed(s, e.info).tick + 1 {
      ContiguousKeepsExact(s, h, e);
    } else {
      GapKeepsExact(s, h, e);
    }
  }

  /** Without interruptions it is enough that every report is well formed. */
  predicate ReportsWellFormed(run: Run)
  {
    run == []
    || (ReportsWellFormed(run[..|run| - 1]) && WellFormed(Final(run[..|run| - 1]), run[|run| - 1].info))
  }

  lemma {:induction false} CleanRunIsExact(run: Run)
    requires ReportsWellFormed(run) && Uninterrupted(run)
    ensures RunOk(run)
    ensures FateOf(run) == NO_LOSS
    ensures Inv(Final(run), HistoryOf(run), NO_LOSS) && Exact(Final(run), HistoryOf(run))
  {
    if run == [] {
      EmptyInv();
      assert forall e: uint32 :: IntervalsOf(EMPTY, e) == [];
    } else {
      var before, e := run[..|run| - 1], run[|run| - 1];
      CleanRunIsExact(before);
      assert Clean(e);
      NeverBehind(Final(before), HistoryOf(before), NO_LOSS, e.info);
      CleanFate(Final(before), HistoryOf(before), e);
      CleanStepKeepsExact(Final(before), HistoryOf(before), e);
    }
  }

  // ---------- the partition theorem ----------

  ghost predicate InSomeEpoch(s: State, t: int)
  {
    exists e :: e in s.intervals && Covered(s, e, t)
  }

  /** After every uninterrupted run the processed and the skipped ticks are disjoint and together are
      exactly 1..last; interval coverage is the run's history, epoch by epoch and in order; intervals
      are non-empty, apart by at least one tick within an epoch, and ordered across epochs; and every
      epoch's last-tick record is the end of its newest interval. */
  lemma TicksArePartitioned(run: Run)
    requires ReportsWellFormed(run) && Uninterrupted(run)
    ensures var s, h := Final(run), HistoryOf(run);
            && (forall t :: InSomeEpoch(s, t) <==> Processed(h, t))
            && (forall t :: !(Skipped(s, t) && Processed(h, t)))
            && (forall t :: Skipped(s, t) || Processed(h, t) <==> s.last.Some? && 1 <= t <= s.last.value.tick)
            && (forall e: uint32 :: Expand(IntervalsOf(s, e)) == TicksOf(h, e))
            && (forall e :: e in s.intervals ==> ListOk(s.intervals[e]) && Separated(s.intervals[e]))
            && EpochsApart(s) && SkipsSeparated(s.skipped)
            && s.lastPerEpoch.Keys == s.intervals.Keys
            && (forall e :: e in s.intervals ==> s.lastPerEpoch[e] == End(s.intervals[e]))
  {
    CleanRunIsExact(run);
    CoverageIsHistory(Final(run), HistoryOf(run));
    SkipsComplement(Final(run), HistoryOf(run));
  }

  lemma SkipsComplement(s: State, h: History)
    requires MarkerOk(s, h) && SkipsOk(s, h, NO_LOSS) && SkipsBelowMarker(s, h) && SkipsUnprocessed(s, h)
    ensures forall t :: !(Skipped(s, t) && Processed(h, t))
    ensures forall t :: Skipped(s, t) || Processed(h, t) <==> s.last.Some? && 1 <= t <= s.last.value.tick
  {}

  lemma CoverageIsHistory(s: State, h: History)
    requires CoverageOk(s, h, NO_LOSS)
    requires HistoryOk(h)
    ensures forall t :: InSomeEpoch(s, t) <==> Processed(h, t)
  {
    forall t ensures InSomeEpoch(s, t) <==> Processed(h, t) {
      if Processed(h, t) {
        var i :| 0 <= i < |h| && h[i].tick == t;
        assert ProcessedTick(t, h[i].epoch) in h;
        assert Covered(s, h[i].epoch, t);
      }
    }
  }

  // ---------- older epochs ----------

  /** When the node jumps past the last tick, the order of epochs survives exactly if the reported
      epoch is not an older one. */
  lemma OlderEpochBreaksOrder(s: State, h: History, info: TickInfo)
    requires Inv(s, h, NO_LOSS) && Exact(s, h) && h != []
    requires info.tick < MAX_UINT32 && Due(s, info) && info.initialTick > h[|h| - 1].tick
    ensures EpochsApart(Step(s, info)) <==> info.epoch >= h[|h| - 1].epoch
  {
    if info.epoch >= h[|h| - 1].epoch {
      PlayIsStep(s, info);
      NeverBehind(s, h, NO_LOSS, info);
      PlayKeepsInv(s, h, NO_LOSS, Attempt(info, ALL_WRITES));
    } else {
      OlderEpochMixes(s, h, info);
    }
  }

  lemma OlderEpochMixes(s: State, h: History, info: TickInfo)
    requires Inv(s, h, NO_LOSS) && Exact(s, h) && h != []
    requires Due(s, info) && info.initialTick > h[|h| - 1].tick && info.epoch < h[|h| - 1].epoch
    ensures !EpochsApart(Step(s, info))
  {
    NewestAtMarker(s, h);
    JumpMixes(s, info, h[|h| - 1]);
  }

  lemma NewestAtMarker(s: State, h: History)
    requires Inv(s, h, NO_LOSS) && Exact(s, h) && h != []
    ensures s.last == Some(h[|h| - 1]) && h[|h| - 1].epoch in s.intervals && s.intervals[h[|h| - 1].epoch] != []
    ensures var ivs := s.intervals[h[|h| - 1].epoch]; ivs[|ivs| - 1].first <= h[|h| - 1].tick
  {
    EndIsMarker(s, h);
    IntervalsBelowMarker(s, h, NO_LOSS, h[|h| - 1].epoch, |s.intervals[h[|h| - 1].epoch]| - 1);
  }

  lemma JumpMixes(s: State, info: TickInfo, last: ProcessedTick)
    requires s.last == Some(last) && last.epoch in s.intervals && s.intervals[last.epoch] != []
    requires var ivs := s.intervals[last.epoch]; ivs[|ivs| - 1].first <= last.tick
    requires Due(s, info) && info.initialTick > last.tick && info.epoch < last.epoch
    ensures !EpochsApart(Step(s, info))
  {
    JumpCoversNext(s, info);
    NotBelow(Step(s, info), info.epoch, last.epoch);
  }

  lemma NotBelow(s: State, d: uint32, e: uint32)
    requires d in s.intervals && e in s.intervals && d < e && s.intervals[d] != [] && s.intervals[e] != []
    requires End(s.intervals[d]) >= s.intervals[e][|s.intervals[e]| - 1].first
    ensures !EpochsApart(s)
  {
    var a, b := s.intervals[d], s.intervals[e];
    assert a[|a| - 1].last >= b[|b| - 1].first;
    assert !Below(a, b);
  }

  /** Wherever the node jumps to, that tick ends the newest interval of the reported epoch and the
      lists of other epochs are untouched. */
  lemma JumpCoversNext(s: State, info: TickInfo)
    requires s.last.Some? && Due(s, info) && info.initialTick > s.last.value.tick
    ensures var s' := Step(s, info);
            && (info.epoch as int) in s'.intervals && s'.intervals[info.epoch] != []
            && End(s'.intervals[info.epoch]) == info.initialTick
            && (forall e :: e in s.intervals && e != info.epoch ==>
                e in s'.intervals && s'.intervals[e] == s.intervals[e])
  {
    var ws := Writes(s, info);
    var next := Next(s, info);
    var init := ws[..|ws| - 1];
    assert ws == init + [ExtendInterval(next)];
    ApplyConcat(s, init, [ExtendInterval(next)]);
    var s1 := ApplyAll(s, init);
    assert ApplyAll(s1, [ExtendInterval(next)]) == Apply(s1, ExtendInterval(next));
    OtherEpochsUntouched(s, init, info.epoch);
  }

  lemma {:induction false} OtherEpochsUntouched(s: State, ws: seq<Write>, epoch: uint32)
    requires forall w :: w in ws ==>
               && (w.AppendInterval? ==> w.epoch == epoch)
               && (w.ExtendInterval? ==> w.tick.epoch == epoch)
    ensures forall e :: e in s.intervals && e != epoch ==>
              e in ApplyAll(s, ws).intervals && ApplyAll(s, ws).intervals[e] == s.intervals[e]
    decreases |ws|
  {
    if ws != [] {
      assert ws[0] in ws;
      OtherEpochsUntouched(Apply(s, ws[0]), ws[1..], epoch);
    }
  }
}
