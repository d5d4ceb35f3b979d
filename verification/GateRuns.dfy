/** The request gate over all runs, interrupted anywhere and retried with any reports: exactly which
    ticks it misjudges. */
module GateRuns {
  import opened Bytes
  import opened Wrappers
  import opened Keys
  import opened Progress
  import opened ProgressRuns
  import opened RunInvariant
  import opened CleanRuns
  import opened Gate

  /** Uncovered ticks were processed and directly follow a processed tick, because a step across a gap
      writes its interval before the last-tick record. */
  ghost predicate Trailing(h: History, f: Fate)
  {
    forall t :: Uncovered(f, t) ==> Processed(h, t) && (t == 1 || Processed(h, t - 1))
  }

  /** The interval write of the tick was lost or is pending. */
  predicate Uncovered(f: Fate, t: int)
  {
    t in f.lost || t in f.pending
  }

  lemma ProcessedGrows(h: History, next: ProcessedTick)
    ensures forall t :: Processed(h, t) ==> Processed(h + [next], t)
    ensures Processed(h + [next], next.tick)
  {
    forall t | Processed(h, t) ensures Processed(h + [next], t) {
      var i :| 0 <= i < |h| && h[i].tick == t;
      assert (h + [next])[i] == h[i];
    }
    assert (h + [next])[|h|] == next;
  }

  /** The uncovered ticks grow at most by the next tick, and only if it follows the last one. */
  lemma FateGrowth(s: State, f: Fate, e: Attempt)
    requires WellFormed(s, e.info) && Due(s, e.info) && RoomLeft(s)
    ensures var f', next := NextFate(s, f, e), Next(s, e.info);
            || f'.lost + f'.pending <= f.lost + f.pending
            || (&& Marks(s, e) && next.tick == LastProcessed(s, e.info).tick + 1
                && f'.lost + f'.pending <= f.lost + f.pending + {next.tick})
  {
    NextFollows(s, e.info);
    WritesAcrossGap(s, e.info);
  }

  lemma TrailingAfter(h: History, f: Fate, h': History, f': Fate, next: ProcessedTick)
    requires Trailing(h, f) && (h' == h || h' == h + [next])
    requires || f'.lost + f'.pending <= f.lost + f.pending
             || (&& h' == h + [next] && next.tick == LastOf(h) + 1
                 && f'.lost + f'.pending <= f.lost + f.pending + {next.tick})
    ensures Trailing(h', f')
  {
    ProcessedGrows(h, next);
    if h != [] {
      assert Processed(h, h[|h| - 1].tick);
    }
    forall t | Uncovered(f', t) ensures Processed(h', t) && (t == 1 || Processed(h', t - 1)) {
      assert t in f'.lost + f'.pending;
      if t !in f.lost + f.pending {
        assert t == next.tick;
      } else {
        assert Uncovered(f, t);
      }
    }
  }

  lemma StepKeepsTrailing(s: State, h: History, f: Fate, e: Attempt)
    requires MarkerOk(s, h) && Trailing(h, f) && WellFormed(s, e.info) && Due(s, e.info)
    ensures Trailing(h + (if Marks(s, e) then [Next(s, e.info)] else []), NextFate(s, f, e))
  {
    HistoryGrows(s, h, e.info);
    FateGrowth(s, f, e);
    assert h + [] == h;
    TrailingAfter(h, f, h + (if Marks(s, e) then [Next(s, e.info)] else []), NextFate(s, f, e), Next(s, e.info));
  }

  lemma {:induction false} RunKeepsTrailing(run: Run)
    requires RunOk(run)
    ensures Trailing(HistoryOf(run), FateOf(run))
  {
    if run != [] {
      var before, e := run[..|run| - 1], run[|run| - 1];
      RunKeepsTrailing(before);
      RunKeepsInv(before);
      if Due(Final(before), e.info) {
        StepKeepsTrailing(Final(before), HistoryOf(before), FateOf(before), e);
      } else {
        assert HistoryOf(before) + [] == HistoryOf(before);
      }
    }
  }

  ghost predicate StartsAt(s: State, m: int)
  {
    exists e, i :: e in s.intervals && 0 <= i < |s.intervals[e]| && s.intervals[e][i].first == m
  }

  ghost predicate StrayAt(f: Fate, t: int)
  {
    exists x :: x in f.stray && x.tick == t
  }

  /** The tick was processed, or is a stray. */
  ghost predicate Available(h: History, f: Fate, t: int)
  {
    Processed(h, t) || StrayAt(f, t)
  }

  lemma SeenIsAvailable(h: History, f: Fate, e: uint32, t: int)
    requires Seen(h, f, e, t)
    ensures Available(h, f, t)
  {
    if ProcessedTick(t, e) in h {
      var i :| 0 <= i < |h| && h[i] == ProcessedTick(t, e);
    }
  }

  /** An available tick lies in an interval, unless its interval write was lost or is pending. */
  lemma AvailableIsCovered(s: State, h: History, f: Fate, m: int) returns (e: uint32, iv: Interval)
    requires Inv(s, h, f) && Available(h, f, m) && !Uncovered(f, m)
    ensures e in s.intervals && iv in s.intervals[e] && iv.first <= m <= iv.last
  {
    if Processed(h, m) {
      var k :| 0 <= k < |h| && h[k].tick == m;
      e := h[k].epoch;
      assert ProcessedTick(m, e) in h;
    } else {
      var x :| x in f.stray && x.tick == m;
      e := x.epoch;
    }
    assert Seen(h, f, e, m);
    assert Covered(s, e, m);
    var j :| 0 <= j < |s.intervals[e]| && s.intervals[e][j].first <= m <= s.intervals[e][j].last;
    iv := s.intervals[e][j];
  }

  /** An available tick whose predecessor is not available starts an interval. */
  lemma AfterGapStarts(s: State, h: History, f: Fate, m: int)
    requires Inv(s, h, f) && Trailing(h, f) && Available(h, f, m) && !Available(h, f, m - 1)
    requires m > 1 || !Uncovered(f, m)
    ensures StartsAt(s, m)
  {
    var e, iv := AvailableIsCovered(s, h, f, m);
    if iv.first < m {
      CoveredIsSeen(s, h, f, e, iv, m - 1);
      SeenIsAvailable(h, f, e, m - 1);
    } else {
      var i :| 0 <= i < |s.intervals[e]| && s.intervals[e][i] == iv;
    }
  }

  /** Ticks are numbered from one; zero is judged like the others unless tick one is uncovered. */
  predicate Judgeable(f: Fate, t: uint32)
  {
    t >= 1 || !Uncovered(f, 1)
  }

  /** Between an unavailable tick and an available one above it, some interval starts. */
  lemma {:induction false} StartUpTo(s: State, h: History, f: Fate, t: uint32, m: int) returns (n: int)
    requires Inv(s, h, f) && Trailing(h, f) && Judgeable(f, t)
    requires !Available(h, f, t) && Available(h, f, m) && t < m
    ensures t < n <= m && StartsAt(s, n)
    decreases m - t
  {
    if Available(h, f, m - 1) {
      n := StartUpTo(s, h, f, t, m - 1);
    } else {
      AfterGapStarts(s, h, f, m);
      n := m;
    }
  }

  ghost predicate ListStarts(ivs: seq<Tagged>, m: int)
  {
    exists i :: 0 <= i < |ivs| && ivs[i].interval.first == m
  }

  ghost predicate ListHas(ivs: seq<Tagged>, t: int)
  {
    exists i :: 0 <= i < |ivs| && ivs[i].interval.first <= t <= ivs[i].interval.last
  }

  lemma ListScan(ivs: seq<Tagged>, t: uint32)
    requires StartsAscend(ivs)
    ensures var r := FirstBeyond(ivs, t);
            && (r.None? <==> ListHas(ivs, t) || forall m :: ListStarts(ivs, m) ==> m <= t)
            && (r.Some? ==>
                  t < r.value && ListStarts(ivs, r.value) && forall m :: ListStarts(ivs, m) && t < m ==> r.value <= m)
  {
    FirstBeyondMeaning(ivs, t);
    if FirstBeyond(ivs, t).Some? {
      assert ListStarts(ivs, FirstBeyond(ivs, t).value);
    }
  }

  ghost predicate InSomeInterval(s: State, t: int)
  {
    exists e :: Covered(s, e, t)
  }

  /** The skip scan in terms of the stored intervals: nothing is reported if an interval contains the
      tick or none starts beyond it, and otherwise the least start beyond it. */
  lemma ScanMeaning(s: State, h: History, f: Fate, t: uint32)
    requires Inv(s, h, f)
    ensures var r := FirstBeyond(Flat(AllIntervals(s)), t);
            && (r.None? <==> InSomeInterval(s, t) || forall m :: StartsAt(s, m) ==> m <= t)
            && (r.Some? ==> t < r.value && StartsAt(s, r.value) && forall m :: StartsAt(s, m) && t < m ==> r.value <= m)
  {
    ScanOfRun(s, h, f);
    ListScan(Flat(AllIntervals(s)), t);
    forall m ensures StartsAt(s, m) <==> ListStarts(Flat(AllIntervals(s)), m) {
      StartInScan(s, h, f, m);
    }
    ContainedInScan(s, h, f, t);
  }

  lemma StartInScan(s: State, h: History, f: Fate, m: int)
    requires Inv(s, h, f)
    ensures StartsAt(s, m) <==> ListStarts(Flat(AllIntervals(s)), m)
  {
    var ivs := Flat(AllIntervals(s));
    if StartsAt(s, m) {
      var e, j :| e in s.intervals && 0 <= j < |s.intervals[e]| && s.intervals[e][j].first == m;
      FoundInScan(s, h, f, e, s.intervals[e][j]);
    }
    if ListStarts(ivs, m) {
      var i :| 0 <= i < |ivs| && ivs[i].interval.first == m;
      ScanOfRun(s, h, f);
      assert Holds(ivs, ivs[i].epoch, ivs[i].interval);
    }
  }

  lemma ContainedInScan(s: State, h: History, f: Fate, t: uint32)
    requires Inv(s, h, f)
    ensures InSomeInterval(s, t) <==> ListHas(Flat(AllIntervals(s)), t)
  {
    if InSomeInterval(s, t) {
      CoveredIsScanned(s, h, f, t);
    }
    if ListHas(Flat(AllIntervals(s)), t) {
      ScannedIsCovered(s, h, f, t);
    }
  }

  lemma CoveredIsScanned(s: State, h: History, f: Fate, t: uint32)
    requires Inv(s, h, f) && InSomeInterval(s, t)
    ensures ListHas(Flat(AllIntervals(s)), t)
  {
    var e :| Covered(s, e, t);
    var j :| 0 <= j < |s.intervals[e]| && s.intervals[e][j].first <= t <= s.intervals[e][j].last;
    FoundInScan(s, h, f, e, s.intervals[e][j]);
  }

  lemma ScannedIsCovered(s: State, h: History, f: Fate, t: uint32)
    requires Inv(s, h, f) && ListHas(Flat(AllIntervals(s)), t)
    ensures InSomeInterval(s, t)
  {
    var ivs := Flat(AllIntervals(s));
    var i :| 0 <= i < |ivs| && ivs[i].interval.first <= t <= ivs[i].interval.last;
    ScannedIsStored(s, h, f, ivs[i]);
    ContainsIfMember(s, ivs[i].epoch, ivs[i].interval, t);
  }

  lemma ScannedIsStored(s: State, h: History, f: Fate, x: Tagged)
    requires Inv(s, h, f) && x in Flat(AllIntervals(s))
    ensures x.epoch in s.intervals && x.interval in s.intervals[x.epoch]
  {
    ScanOfRun(s, h, f);
    assert Holds(Flat(AllIntervals(s)), x.epoch, x.interval);
  }

  lemma ContainsIfMember(s: State, e: uint32, iv: Interval, t: int)
    requires e in s.intervals && iv in s.intervals[e] && iv.first <= t <= iv.last
    ensures InSomeInterval(s, t)
  {
    assert InIntervals(s.intervals[e], t);
    assert Covered(s, e, t);
  }

  /** Some interval starts beyond the tick. */
  ghost predicate StartsBeyond(s: State, t: int)
  {
    exists m :: t < m && StartsAt(s, m)
  }

  ghost predicate LeastAvailableAbove(h: History, f: Fate, t: int, n: int)
  {
    Available(h, f, n) && t < n && forall m :: Available(h, f, m) && t < m ==> n <= m
  }

  lemma UnavailableIsSkipped(s: State, h: History, f: Fate, t: uint32)
    requires Inv(s, h, f) && Trailing(h, f) && h != [] && Judgeable(f, t) && t <= LastOf(h) && !Available(h, f, t)
    ensures var r := FirstBeyond(Flat(AllIntervals(s)), t); r.Some? && LeastAvailableAbove(h, f, t, r.value)
  {
    ScanMeaning(s, h, f, t);
    assert Processed(h, h[|h| - 1].tick);
    assert t != LastOf(h);
    var n := StartUpTo(s, h, f, t, LastOf(h));
    NotCovered(s, h, f, t);
    var r := FirstBeyond(Flat(AllIntervals(s)), t);
    StartIsAvailable(s, h, f, r.value);
    forall m | Available(h, f, m) && t < m ensures r.value <= m {
      var x := StartUpTo(s, h, f, t, m);
    }
  }

  lemma NotCovered(s: State, h: History, f: Fate, t: uint32)
    requires Inv(s, h, f) && (!Available(h, f, t) || Uncovered(f, t))
    ensures !InSomeInterval(s, t)
  {
    if InSomeInterval(s, t) {
      CoveredIsAvailable(s, h, f, t);
    }
  }

  lemma CoveredIsAvailable(s: State, h: History, f: Fate, t: uint32)
    requires Inv(s, h, f) && InSomeInterval(s, t)
    ensures Available(h, f, t) && !Uncovered(f, t)
  {
    var e :| Covered(s, e, t);
    SeenIsAvailable(h, f, e, t);
  }

  lemma StartIsAvailable(s: State, h: History, f: Fate, m: int)
    requires Inv(s, h, f) && StartsAt(s, m)
    ensures Available(h, f, m)
  {
    var e, j :| e in s.intervals && 0 <= j < |s.intervals[e]| && s.intervals[e][j].first == m;
    EndsAreSeen(s, h, f, e, j);
    SeenIsAvailable(h, f, e, m);
  }

  /** A stray is covered, so it is accepted like a processed tick. */
  lemma StrayIsAccepted(s: State, h: History, f: Fate, t: uint32)
    requires Inv(s, h, f) && StrayAt(f, t)
    ensures FirstBeyond(Flat(AllIntervals(s)), t) == None
  {
    ScanMeaning(s, h, f, t);
    var x :| x in f.stray && x.tick == t;
    assert Seen(h, f, x.epoch, t);
    assert Covered(s, x.epoch, t);
  }

  lemma UncoveredIsRefusedIff(s: State, h: History, f: Fate, t: uint32)
    requires Inv(s, h, f) && Uncovered(f, t)
    ensures FirstBeyond(Flat(AllIntervals(s)), t).Some? <==> StartsBeyond(s, t)
  {
    ScanMeaning(s, h, f, t);
    NotCovered(s, h, f, t);
  }

  /** A pending tick is refused exactly while something is written beyond the last processed tick. */
  lemma PendingIsRefusedIff(s: State, h: History, f: Fate, t: uint32)
    requires Inv(s, h, f) && t in f.pending
    ensures FirstBeyond(Flat(AllIntervals(s)), t).Some? <==> exists x :: Open(h, f, x)
  {
    UncoveredIsRefusedIff(s, h, f, t);
    if x :| Open(h, f, x) {
      OpenStartsBeyond(s, h, f, x, t);
    } else {
      PendingIsBeyond(s, h, f, t);
    }
  }

  lemma OpenStartsBeyond(s: State, h: History, f: Fate, x: ProcessedTick, t: int)
    requires Inv(s, h, f) && Open(h, f, x) && t <= LastOf(h)
    ensures StartsBeyond(s, t)
  {
    assert Seen(h, f, x.epoch, x.tick);
    assert Covered(s, x.epoch, x.tick);
    var ivs := s.intervals[x.epoch];
    var i :| 0 <= i < |ivs| && ivs[i].first <= x.tick <= ivs[i].last;
    BeyondStartsBeyond(s, h, f, x.epoch, ivs[i]);
    assert StartsAt(s, ivs[i].first);
  }

  /** What the gate says about a tick. Beyond the last processed tick it is too new. A processed tick is
      accepted, unless its interval write was lost or is pending and an interval starts beyond it. A tick that was not
      processed is skipped, with the least available tick above it, unless it is a stray, which is
      accepted. */
  ghost predicate GateVerdict(s: State, h: History, f: Fate, t: uint32)
  {
    if h == [] then Check(s, t) == Internal
    else if t > LastOf(h) then Check(s, t) == TooNew(LastOf(h))
    else if Processed(h, t) then
      if Uncovered(f, t) && StartsBeyond(s, t) then Check(s, t).WasSkipped? else Check(s, t) == Accepted
    else if StrayAt(f, t) then Check(s, t) == Accepted
    else Check(s, t).WasSkipped? && LeastAvailableAbove(h, f, t, Check(s, t).next)
  }

  /** The gate after any run: passes may stop anywhere and be followed by passes with other reports. */
  lemma GateOverRuns(run: Run, t: uint32)
    requires RunOk(run) && Judgeable(FateOf(run), t)
    ensures GateVerdict(Final(run), HistoryOf(run), FateOf(run), t)
  {
    RunKeepsInv(run);
    RunKeepsTrailing(run);
    GateOnState(Final(run), HistoryOf(run), FateOf(run), t);
  }

  lemma GateOnState(s: State, h: History, f: Fate, t: uint32)
    requires Inv(s, h, f) && Trailing(h, f) && Judgeable(f, t)
    ensures GateVerdict(s, h, f, t)
  {
    MarkerFacts(s, h, f);
    if h != [] && t <= LastOf(h) {
      CheckIsScan(s, t);
      if !Available(h, f, t) {
        UnavailableIsSkipped(s, h, f, t);
      } else if !Processed(h, t) {
        StrayIsAccepted(s, h, f, t);
      } else if Uncovered(f, t) {
        UncoveredIsRefusedIff(s, h, f, t);
      } else {
        GateAccepts(s, h, f, t);
      }
    }
  }

  lemma CheckIsScan(s: State, t: uint32)
    requires s.last.Some? && t <= s.last.value.tick
    ensures Check(s, t) == match FirstBeyond(Flat(AllIntervals(s)), t)
                           case None => Accepted
                           case Some(next) => WasSkipped(next)
  {}

  lemma MarkerFacts(s: State, h: History, f: Fate)
    requires Inv(s, h, f)
    ensures s.last == if h == [] then None else Some(h[|h| - 1])
  {}

  /** No tick with a lost or pending interval write lies below a stored interval. */
  ghost predicate NoneRefused(s: State, f: Fate)
  {
    forall t :: Uncovered(f, t) ==> !StartsBeyond(s, t)
  }

  /** No stray lies below the last processed tick. */
  ghost predicate NoneStray(h: History, f: Fate)
  {
    forall x :: x in f.stray ==> x.tick > LastOf(h)
  }

  /** So acceptance coincides with having been processed exactly if no tick with a lost or pending
      interval write lies below a stored interval and no stray lies below the last processed tick. */
  lemma GateExactIff(run: Run)
    requires RunOk(run)
    ensures var s, h, f := Final(run), HistoryOf(run), FateOf(run);
            (forall t: uint32 :: t >= 1 ==> (Check(s, t) == Accepted <==> Processed(h, t)))
            <==> NoneRefused(s, f) && NoneStray(h, f)
  {
    forall t: uint32 | t >= 1 ensures AcceptedIff(Final(run), HistoryOf(run), FateOf(run), t) {
      AcceptanceOverRuns(run, t);
    }
    UncoveredFacts(run);
    ExactFromVerdicts(Final(run), HistoryOf(run), FateOf(run));
  }

  ghost predicate AcceptedIff(s: State, h: History, f: Fate, t: uint32)
  {
    Check(s, t) == Accepted
    <==> (Processed(h, t) && !(Uncovered(f, t) && StartsBeyond(s, t))) || (StrayAt(f, t) && t <= LastOf(h))
  }

  lemma AcceptanceOverRuns(run: Run, t: uint32)
    requires RunOk(run) && t >= 1
    ensures AcceptedIff(Final(run), HistoryOf(run), FateOf(run), t)
  {
    GateOverRuns(run, t);
    RunKeepsInv(run);
    UpToMarker(Final(run), HistoryOf(run), FateOf(run), t);
  }

  lemma UpToMarker(s: State, h: History, f: Fate, t: int)
    requires Inv(s, h, f)
    ensures Processed(h, t) ==> h != [] && t <= LastOf(h)
    ensures StrayAt(f, t) ==> t > 1 && !Processed(h, t)
  {}

  lemma UncoveredFacts(run: Run)
    requires RunOk(run)
    ensures forall t :: Uncovered(FateOf(run), t) ==> 1 <= t <= MAX_UINT32 && Processed(HistoryOf(run), t)
    ensures forall x :: x in FateOf(run).stray ==> x.tick > 1 && !Processed(HistoryOf(run), x.tick)
  {
    RunKeepsInv(run);
    RunKeepsTrailing(run);
    LostInRange(Final(run), HistoryOf(run), FateOf(run));
    forall x | x in FateOf(run).stray ensures x.tick > 1 && !Processed(HistoryOf(run), x.tick) {
      assert StrayAt(FateOf(run), x.tick);
      UpToMarker(Final(run), HistoryOf(run), FateOf(run), x.tick);
    }
  }

  lemma LostInRange(s: State, h: History, f: Fate)
    requires Inv(s, h, f)
    ensures forall t :: Uncovered(f, t) ==> 1 <= t <= MAX_UINT32
  {}

  lemma ExactFromVerdicts(s: State, h: History, f: Fate)
    requires forall t: uint32 :: t >= 1 ==> AcceptedIff(s, h, f, t)
    requires forall t :: Uncovered(f, t) ==> 1 <= t <= MAX_UINT32 && Processed(h, t)
    requires forall x :: x in f.stray ==> x.tick > 1 && !Processed(h, x.tick)
    ensures (forall t: uint32 :: t >= 1 ==> (Check(s, t) == Accepted <==> Processed(h, t)))
            <==> NoneRefused(s, f) && NoneStray(h, f)
  {
    if !NoneRefused(s, f) {
      var t: int :| Uncovered(f, t) && StartsBeyond(s, t);
      RefusedTick(s, h, f, t);
    }
    if !NoneStray(h, f) {
      var x :| x in f.stray && x.tick <= LastOf(h);
      assert StrayAt(f, x.tick);
      assert AcceptedIff(s, h, f, x.tick);
    }
    if NoneRefused(s, f) && NoneStray(h, f) {
      forall t: uint32 | t >= 1 ensures Check(s, t) == Accepted <==> Processed(h, t) {
        assert AcceptedIff(s, h, f, t);
      }
    }
  }

  lemma RefusedTick(s: State, h: History, f: Fate, t: uint32)
    requires AcceptedIff(s, h, f, t) && Uncovered(f, t) && StartsBeyond(s, t) && Processed(h, t)
    requires forall x :: x in f.stray ==> !Processed(h, x.tick)
    ensures Check(s, t) != Accepted
  {}

  ghost predicate LeastProcessedAbove(h: History, t: int, n: int)
  {
    Processed(h, n) && t < n && forall m :: Processed(h, m) && t < m ==> n <= m
  }

  /** Without strays below the last processed tick, the tick that a skip names is the least processed
      one above. */
  lemma SkipNamesProcessed(run: Run, t: uint32)
    requires RunOk(run) && Judgeable(FateOf(run), t) && NoneStray(HistoryOf(run), FateOf(run))
    requires var h := HistoryOf(run); h != [] && t <= LastOf(h) && !Processed(h, t)
    ensures Check(Final(run), t).WasSkipped? && LeastProcessedAbove(HistoryOf(run), t, Check(Final(run), t).next)
  {
    RunKeepsInv(run);
    RunKeepsTrailing(run);
    SkipInState(Final(run), HistoryOf(run), FateOf(run), t);
  }

  lemma SkipInState(s: State, h: History, f: Fate, t: uint32)
    requires Inv(s, h, f) && Trailing(h, f) && Judgeable(f, t) && NoneStray(h, f)
    requires h != [] && t <= LastOf(h) && !Processed(h, t)
    ensures Check(s, t).WasSkipped? && LeastProcessedAbove(h, t, Check(s, t).next)
  {
    MarkerFacts(s, h, f);
    CheckIsScan(s, t);
    UnavailableIsSkipped(s, h, f, t);
    LeastIsProcessed(h, f, t, Check(s, t).next);
  }

  lemma LeastIsProcessed(h: History, f: Fate, t: int, n: int)
    requires LeastAvailableAbove(h, f, t, n) && NoneStray(h, f) && h != [] && t <= LastOf(h) && !Processed(h, t)
    ensures LeastProcessedAbove(h, t, n)
  {
    assert Processed(h, h[|h| - 1].tick);
    assert Available(h, f, LastOf(h));
    assert !StrayAt(f, n);
    forall m | Processed(h, m) && t < m ensures n <= m {
      assert Available(h, f, m);
    }
  }

  /** Accepted exactly if processed, too new exactly if beyond the last processed tick, and otherwise
      skipped, with the least processed tick above. */
  ghost predicate Right(h: History, t: uint32, v: Verdict)
  {
    && (v == Internal <==> h == [])
    && (v == Accepted <==> Processed(h, t))
    && (v.TooNew? <==> h != [] && t > LastOf(h)) && (v.TooNew? ==> v.last == LastOf(h))
    && (v.WasSkipped? ==> LeastProcessedAbove(h, t, v.next))
  }

  lemma RightVerdict(s: State, h: History, t: uint32)
    requires GateVerdict(s, h, NO_LOSS, t) && (Processed(h, t) ==> h != [] && t <= LastOf(h))
    requires h != [] && t <= LastOf(h) && !Processed(h, t) ==>
               Check(s, t).WasSkipped? && LeastProcessedAbove(h, t, Check(s, t).next)
    ensures Right(h, t, Check(s, t))
  {}

  /** Without interruptions the gate is right about every tick. */
  lemma CleanGateIsRight(run: Run, t: uint32)
    requires ReportsWellFormed(run) && Uninterrupted(run)
    ensures Right(HistoryOf(run), t, Check(Final(run), t))
  {
    CleanRunIsExact(run);
    RightInState(Final(run), HistoryOf(run), t);
  }

  lemma RightInState(s: State, h: History, t: uint32)
    requires Inv(s, h, NO_LOSS)
    ensures Right(h, t, Check(s, t))
  {
    NothingStray(h);
    GateOnState(s, h, NO_LOSS, t);
    UpToMarker(s, h, NO_LOSS, t);
    if h != [] && t <= LastOf(h) && !Processed(h, t) {
      SkipInState(s, h, NO_LOSS, t);
    }
    RightVerdict(s, h, t);
  }

  lemma NothingStray(h: History)
    ensures Trailing(h, NO_LOSS) && NoneStray(h, NO_LOSS)
  {}

  // ---------- runs that make the gate err ----------

  lemma RunSnoc(run: Run, e: Attempt)
    ensures var s, f := Final(run), FateOf(run);
            && Final(run + [e]) == Play(s, e)
            && HistoryOf(run + [e]) == HistoryOf(run) + (if Marks(s, e) then [Next(s, e.info)] else [])
            && FateOf(run + [e]) == NextFate(s, f, e)
            && (RunOk(run + [e]) <==> RunOk(run) && WellFormed(s, e.info) && (Due(s, e.info) ==> NotBehind(s, e.info)))
  {
    assert (run + [e])[..|run|] == run;
  }

  /** An interruption that loses a tick: the first tick of an epoch is marked as processed but stopped
      before its interval write. After the next tick the gate refuses the first one. */
  lemma LostTickIsRefused() returns (run: Run)
    ensures RunOk(run) && Processed(HistoryOf(run), 1)
    ensures Check(Final(run), 1).WasSkipped?
  {
    var info := TickInfo(1, 5, 10);
    var first, second := Attempt(info, 1), Attempt(info, ALL_WRITES);
    var before := [] + [first];
    RunSnoc([], first);
    ContiguousStep(EMPTY, first);
    assert HistoryOf(before) == [ProcessedTick(1, 10)] && FateOf(before) == Fate({1}, {}, {});
    run := before + [second];
    RunSnoc(before, second);
    ContiguousStep(Final(before), second);
    assert Final(run).intervals[10] == [Interval(2, 2)] && Final(run).intervals[10][0].first == 2;
    assert StartsAt(Final(run), 2);
    assert HistoryOf(run)[0].tick == 1 && HistoryOf(run)[1].tick == 2;
    GateOverRuns(run, 1);
  }

  /** An interruption that leaves a stray: a pass to tick 5 stops after its interval write, and the next
      report leads to tick 8. The gate then accepts tick 5, which was never processed. */
  lemma StrayTickIsAccepted() returns (run: Run)
    ensures RunOk(run) && !Processed(HistoryOf(run), 5)
    ensures Check(Final(run), 5) == Accepted
  {
    var first, second := Attempt(TickInfo(5, 9, 10), 1), Attempt(TickInfo(8, 9, 10), ALL_WRITES);
    var before := [] + [first];
    RunSnoc([], first);
    GapStep(EMPTY, first);
    assert IntervalsOf(EMPTY, 10) + [Interval(5, 5)] == [Interval(5, 5)];
    assert Final(before).intervals == map[10 := [Interval(5, 5)]];
    assert HistoryOf(before) == [] && FateOf(before) == Fate({}, {}, {ProcessedTick(5, 10)});
    run := before + [second];
    RunSnoc(before, second);
    GapStep(Final(before), second);
    assert HistoryOf(run) == [ProcessedTick(8, 10)];
    assert ProcessedTick(5, 10) in FateOf(run).stray;
    assert StrayAt(FateOf(run), 5);
    GateOverRuns(run, 5);
  }

  /** A report that falls behind such a stray is why reports are assumed not to: a pass to tick 8 stops
      after its interval write, and the next report leads to tick 5. That tick is processed, but its
      interval is stored after one that starts beyond it, and the gate refuses it. */
  lemma ReportBehindIsRefused() returns (s: State)
    ensures var first := Play(EMPTY, Attempt(TickInfo(8, 9, 10), 1));
            && WellFormed(first, TickInfo(5, 9, 10)) && !NotBehind(first, TickInfo(5, 9, 10))
            && s == Step(first, TickInfo(5, 9, 10))
    ensures s.last == Some(ProcessedTick(5, 10)) && Check(s, 5) == WasSkipped(8)
  {
    var first, second := Attempt(TickInfo(8, 9, 10), 1), TickInfo(5, 9, 10);
    GapStep(EMPTY, first);
    var s1 := Play(EMPTY, first);
    assert IntervalsOf(EMPTY, 10) + [Interval(8, 8)] == [Interval(8, 8)];
    assert s1.intervals == map[10 := [Interval(8, 8)]];
    assert !FollowsInterval(LastProcessed(s1, second), Next(s1, second), 10, s1.intervals[10][0]);
    PlayIsStep(s1, second);
    GapStep(s1, Attempt(second, ALL_WRITES));
    s := Step(s1, second);
    assert IntervalsOf(s1, 10) + [Interval(5, 5)] == [Interval(8, 8), Interval(5, 5)];
    assert s.intervals == map[10 := [Interval(8, 8), Interval(5, 5)]];
    OneEpochScanned(s, 10);
    CheckIsScan(s, 5);
    var flat := Flat(AllIntervals(s));
    assert flat[0] == Tagged(10, Interval(8, 8));
  }

  lemma OneEpochScanned(s: State, e: uint32)
    requires s.intervals.Keys == {e} && e <= MAX_SCANNED_EPOCH && s.intervals[e] != []
    ensures Flat(AllIntervals(s)) == Gate.Tag(EpochIntervals(e, s.intervals[e]))
  {
    IncreasingUnique(ScannedEpochs(s), [e]);
    var all := AllIntervals(s);
    assert all == [EpochIntervals(e, s.intervals[e])];
    assert all[1..] == [];
  }
}
