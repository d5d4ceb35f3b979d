/** The inductive invariant of runs whose passes stop anywhere, each with a report of its own. */
module RunInvariant {
  import opened Bytes
  import opened Wrappers
  import opened Progress
  import opened ProgressRuns

  ghost predicate MarkerOk(s: State, h: History)
  {
    && HistoryOk(h)
    && s.last == (if h == [] then None else Some(h[|h| - 1]))
  }

  /** The last processed tick, or zero. */
  function LastOf(h: History): (t: uint32)
  {
    if h == [] then 0 else h[|h| - 1].tick
  }

  /** An epoch's intervals are non-empty and start in ascending order. */
  ghost predicate ListOk(ivs: seq<Interval>)
  {
    && ivs != []
    && (forall i :: 0 <= i < |ivs| ==> ivs[i].first <= ivs[i].last)
    && (forall i, j :: 0 <= i < j < |ivs| ==> ivs[i].first <= ivs[j].first)
  }

  ghost predicate ListsOk(s: State)
  {
    forall e :: e in s.intervals ==> ListOk(s.intervals[e])
  }

  ghost predicate Below(a: seq<Interval>, b: seq<Interval>)
  {
    forall i, j :: 0 <= i < |a| && 0 <= j < |b| ==> a[i].last < b[j].first
  }

  /** Intervals of different epochs do not meet and are ordered as their epochs. */
  ghost predicate EpochsApart(s: State)
  {
    forall d, e :: d in s.intervals && e in s.intervals && d < e ==> Below(s.intervals[d], s.intervals[e])
  }

  /** The tick was processed in the epoch, or is a stray of it. */
  ghost predicate Seen(h: History, f: Fate, epoch: uint32, t: int)
  {
    0 <= t <= MAX_UINT32 && (ProcessedTick(t, epoch) in h || ProcessedTick(t, epoch) in f.stray)
  }

  /** Intervals cover exactly the processed ticks, in the right epoch, that were neither lost nor left
      pending, and the strays. */
  ghost predicate CoverageOk(s: State, h: History, f: Fate)
  {
    forall e, t :: Covered(s, e, t) <==> Seen(h, f, e, t) && t !in f.lost && t !in f.pending
  }

  function End(ivs: seq<Interval>): (t: uint32)
    requires ivs != []
  {
    ivs[|ivs| - 1].last
  }

  /** A stray beyond the last processed tick. */
  ghost predicate Open(h: History, f: Fate, x: ProcessedTick)
  {
    x in f.stray && x.tick > LastOf(h)
  }

  /** Something has been written beyond the last processed tick in the epoch. */
  ghost predicate Ahead(h: History, f: Fate, epoch: uint32)
  {
    exists x :: Open(h, f, x) && x.epoch == epoch
  }

  /** Pending ticks are those between the end of the current epoch's newest interval and the marker, as
      long as nothing has been written beyond the marker in that epoch. */
  ghost predicate FateOk(s: State, h: History, f: Fate)
  {
    && (forall t :: t in f.lost || t in f.pending ==> h != [] && 1 <= t <= LastOf(h))
    && f.lost !! f.pending
    && (forall t :: t in f.pending <==>
          && h != [] && !Ahead(h, f, h[|h| - 1].epoch)
          && h[|h| - 1].epoch in s.intervals && s.intervals[h[|h| - 1].epoch] != []
          && End(s.intervals[h[|h| - 1].epoch]) < t <= LastOf(h))
    && (forall t :: t in f.pending ==> ProcessedTick(t, h[|h| - 1].epoch) in h)
  }

  /** Strays were not processed. Those beyond the marker are in no older epoch, across a gap if they are in
      the current one; those below it are in no newer epoch. */
  ghost predicate StrayOk(h: History, f: Fate)
  {
    forall x :: x in f.stray ==>
      && 1 < x.tick < MAX_UINT32 && x.epoch < 0x1_0000
      && !Processed(h, x.tick) && x.tick !in f.lost && x.tick !in f.pending
      && (h != [] ==> StrayPlaced(h[|h| - 1], x))
  }

  predicate StrayPlaced(last: ProcessedTick, x: ProcessedTick)
  {
    if x.tick <= last.tick then x.epoch <= last.epoch
    else x.epoch >= last.epoch && (x.epoch == last.epoch ==> x.tick > last.tick + 1)
  }

  /** A tick of a newer epoch above the processed tick is stored. */
  ghost predicate Overtaken(h: History, f: Fate, t: int)
  {
    exists p, x :: Overtakes(h, f, p, x) && p.tick == t
  }

  ghost predicate Overtakes(h: History, f: Fate, p: ProcessedTick, x: ProcessedTick)
  {
    p in h && (x in h || x in f.stray) && p.tick < x.tick && p.epoch < x.epoch
  }

  /** Up to the marker, skipped ranges cover all ticks that were not processed, and processed ones only if
      they were overtaken by a tick of a newer epoch; beyond it, only ticks below a stray. */
  ghost predicate SkipsOk(s: State, h: History, f: Fate)
  {
    && (forall t :: 1 <= t <= LastOf(h) && !Processed(h, t) ==> Skipped(s, t))
    && (forall t :: Skipped(s, t) && Processed(h, t) ==> Overtaken(h, f, t))
    && (forall t :: t > LastOf(h) && Skipped(s, t) ==> exists x :: Open(h, f, x) && t < x.tick)
  }

  ghost predicate Inv(s: State, h: History, f: Fate)
  {
    && MarkerOk(s, h)
    && ListsOk(s)
    && EpochsApart(s)
    && CoverageOk(s, h, f)
    && FateOk(s, h, f)
    && StrayOk(h, f)
    && SkipsOk(s, h, f)
  }

  // ---------- what a report finds ----------

  lemma HistoryGrows(s: State, h: History, info: TickInfo)
    requires MarkerOk(s, h) && WellFormed(s, info) && Due(s, info)
    ensures RoomLeft(s)
    ensures HistoryOk(h + [Next(s, info)])
    ensures LastProcessed(s, info).tick == LastOf(h)
    ensures LastOf(h) < Next(s, info).tick < MAX_UINT32 && Next(s, info).epoch < 0x1_0000
    ensures h != [] ==> LastProcessed(s, info) == h[|h| - 1] && h[|h| - 1].epoch <= Next(s, info).epoch
  {
    NextFollows(s, info);
  }

  lemma TicksBefore(h: History, next: ProcessedTick)
    requires HistoryOk(h + [next])
    ensures forall i :: 0 <= i < |h| ==> h[i].tick < next.tick
    ensures LastOf(h) < next.tick
  {
    assert (h + [next])[|h|] == next;
    forall i | 0 <= i < |h| ensures h[i].tick < next.tick {
      assert (h + [next])[i].tick < (h + [next])[|h|].tick;
    }
  }

  lemma EndsAreSeen(s: State, h: History, f: Fate, e: uint32, i: nat)
    requires Inv(s, h, f) && e in s.intervals && i < |s.intervals[e]|
    ensures s.intervals[e][i].first <= s.intervals[e][i].last
    ensures Seen(h, f, e, s.intervals[e][i].first) && Seen(h, f, e, s.intervals[e][i].last)
  {
    var iv := s.intervals[e][i];
    assert InIntervals(s.intervals[e], iv.first) && InIntervals(s.intervals[e], iv.last);
    assert Covered(s, e, iv.first) && Covered(s, e, iv.last);
  }

  /** An interval that reaches beyond the marker starts beyond it. */
  lemma BeyondStartsBeyond(s: State, h: History, f: Fate, e: uint32, iv: Interval)
    requires CoverageOk(s, h, f) && StrayOk(h, f) && HistoryOk(h)
    requires e in s.intervals && iv in s.intervals[e] && iv.first <= iv.last && iv.last > LastOf(h)
    ensures iv.first > LastOf(h)
  {
    if iv.first <= LastOf(h) {
      assert InIntervals(s.intervals[e], LastOf(h) + 1) && InIntervals(s.intervals[e], iv.first);
      assert Covered(s, e, LastOf(h) + 1) && Covered(s, e, iv.first);
      SuccessorSeen(h, f, e);
      SeenUpToMarker(h, f, e, iv.first);
    }
  }

  /** What was seen right after the marker is a stray of a newer epoch. */
  lemma SuccessorSeen(h: History, f: Fate, e: uint32)
    requires StrayOk(h, f) && HistoryOk(h) && Seen(h, f, e, LastOf(h) + 1)
    ensures h != [] && e > h[|h| - 1].epoch
  {}

  lemma SeenUpToMarker(h: History, f: Fate, e: uint32, t: uint32)
    requires StrayOk(h, f) && HistoryOk(h) && Seen(h, f, e, t) && t <= LastOf(h)
    ensures h != [] && e <= h[|h| - 1].epoch
  {
    if ProcessedTick(t, e) in h {
      var i :| 0 <= i < |h| && h[i] == ProcessedTick(t, e);
    }
  }

  /** An epoch with intervals is not a newer one, unless it has a stray beyond the marker. */
  lemma KnownNotNewer(s: State, h: History, f: Fate, e: uint32)
    requires Inv(s, h, f) && !Ahead(h, f, e) && e in s.intervals
    ensures h != [] && e <= h[|h| - 1].epoch
  {
    EndsAreSeen(s, h, f, e, 0);
    NotAheadSeen(h, f, e, s.intervals[e][0].first);
    SeenUpToMarker(h, f, e, s.intervals[e][0].first);
  }

  lemma NotAheadSeen(h: History, f: Fate, e: uint32, t: uint32)
    requires HistoryOk(h) && !Ahead(h, f, e) && Seen(h, f, e, t)
    ensures t <= LastOf(h)
  {
    var x := ProcessedTick(t, e);
    if x in h {
      var i :| 0 <= i < |h| && h[i] == x;
    } else {
      assert !Open(h, f, x);
    }
  }

  /** The tick is placed, in its epoch, where the next tick can follow. */
  predicate PlacedFor(next: ProcessedTick, e: uint32, t: int)
  {
    if e < next.epoch then t < next.tick
    else if e == next.epoch then t <= next.tick
    else next.tick < t
  }

  /** A report that is not behind the stored intervals is not behind the strays. */
  lemma OpenBound(s: State, h: History, f: Fate, info: TickInfo, x: ProcessedTick)
    requires Inv(s, h, f) && WellFormed(s, info) && Due(s, info) && NotBehind(s, info) && Open(h, f, x)
    ensures PlacedFor(Next(s, info), x.epoch, x.tick)
  {
    HistoryGrows(s, h, info);
    assert Seen(h, f, x.epoch, x.tick);
    assert Covered(s, x.epoch, x.tick);
    var ivs := s.intervals[x.epoch];
    var i :| 0 <= i < |ivs| && ivs[i].first <= x.tick <= ivs[i].last;
    BeyondStartsBeyond(s, h, f, x.epoch, ivs[i]);
    assert FollowsInterval(LastProcessed(s, info), Next(s, info), x.epoch, ivs[i]);
  }

  /** Without strays, no report is behind. */
  lemma NeverBehind(s: State, h: History, f: Fate, info: TickInfo)
    requires Inv(s, h, f) && f.stray == {}
    ensures NotBehind(s, info)
  {
    forall e, i | e in s.intervals && 0 <= i < |s.intervals[e]|
      ensures FollowsInterval(LastProcessed(s, info), Next(s, info), e, s.intervals[e][i])
    {
      IntervalsBelowMarker(s, h, f, e, i);
    }
  }

  /** Without strays, intervals do not pass the marker. */
  lemma IntervalsBelowMarker(s: State, h: History, f: Fate, e: uint32, i: nat)
    requires Inv(s, h, f) && f.stray == {} && e in s.intervals && i < |s.intervals[e]|
    ensures h != []
    ensures s.intervals[e][i].first <= s.intervals[e][i].last <= h[|h| - 1].tick
  {
    EndsAreSeen(s, h, f, e, i);
    var k :| 0 <= k < |h| && h[k] == ProcessedTick(s.intervals[e][i].last, e);
  }

  ghost predicate AllBelow(s: State, tick: int)
  {
    forall e, i :: e in s.intervals && 0 <= i < |s.intervals[e]| ==>
      s.intervals[e][i].first <= s.intervals[e][i].last < tick
  }

  lemma AllBelowNext(s: State, h: History, f: Fate, tick: int)
    requires Inv(s, h, f) && f.stray == {} && (h != [] ==> h[|h| - 1].tick < tick)
    ensures AllBelow(s, tick)
  {
    forall e, i | e in s.intervals && 0 <= i < |s.intervals[e]|
      ensures s.intervals[e][i].first <= s.intervals[e][i].last < tick
    {
      IntervalsBelowMarker(s, h, f, e, i);
    }
  }

  /** Every stored interval is placed where the next tick can follow. */
  ghost predicate AllUpTo(s: State, next: ProcessedTick)
  {
    forall e, i :: e in s.intervals && 0 <= i < |s.intervals[e]| ==> UpTo(next, e, s.intervals[e][i])
  }

  ghost predicate UpTo(next: ProcessedTick, e: uint32, iv: Interval)
  {
    iv.first <= iv.last && PlacedFor(next, e, iv.first) && PlacedFor(next, e, iv.last)
  }

  lemma AllUpToNext(s: State, h: History, f: Fate, info: TickInfo)
    requires Inv(s, h, f) && WellFormed(s, info) && Due(s, info) && NotBehind(s, info)
    ensures AllUpTo(s, Next(s, info))
  {
    var next := Next(s, info);
    forall e, i | e in s.intervals && 0 <= i < |s.intervals[e]| ensures UpTo(next, e, s.intervals[e][i]) {
      EndsAreSeen(s, h, f, e, i);
      SeenUpToNext(s, h, f, info, e, s.intervals[e][i].first);
      SeenUpToNext(s, h, f, info, e, s.intervals[e][i].last);
    }
  }

  lemma SeenUpToNext(s: State, h: History, f: Fate, info: TickInfo, e: uint32, t: uint32)
    requires Inv(s, h, f) && WellFormed(s, info) && Due(s, info) && NotBehind(s, info) && Seen(h, f, e, t)
    ensures PlacedFor(Next(s, info), e, t)
  {
    HistoryGrows(s, h, info);
    var x := ProcessedTick(t, e);
    if Open(h, f, x) {
      OpenBound(s, h, f, info, x);
    } else {
      if x in h {
        var i :| 0 <= i < |h| && h[i] == x;
      }
      SeenUpToMarker(h, f, e, t);
    }
  }

  // ---------- a pass across a gap ----------

  /** New intervals that hold just the next tick add just that tick. */
  lemma CoverageWithNew(s: State, s': State, next: ProcessedTick)
    requires s'.intervals == Appended(s, next)
    ensures forall d, t :: Covered(s', d, t) <==> Covered(s, d, t) || (d == next.epoch && t == next.tick)
  {
    var old', new' := IntervalsOf(s, next.epoch), s'.intervals[next.epoch];
    forall t ensures InIntervals(new', t) <==> InIntervals(old', t) || t == next.tick {
      if InIntervals(old', t) {
        var i :| 0 <= i < |old'| && old'[i].first <= t <= old'[i].last;
        assert new'[i] == old'[i];
      }
      assert new'[|old'|] == Interval(next.tick, next.tick);
    }
    forall d, t ensures Covered(s', d, t) <==> Covered(s, d, t) || (d == next.epoch && t == next.tick) {
      assert d != next.epoch ==> Covered(s', d, t) == Covered(s, d, t);
    }
  }

  /** Coverage when one more tick is seen and the excluded ticks stay the same. */
  lemma CoverageJoined(s: State, s': State, h: History, f: Fate, h': History, f': Fate, next: ProcessedTick)
    requires CoverageOk(s, h, f) && next.tick !in f.lost && next.tick !in f.pending
    requires f'.lost + f'.pending == f.lost + f.pending
    requires forall x :: x in h' || x in f'.stray <==> x in h || x in f.stray || x == next
    requires forall d, t :: Covered(s', d, t) <==> Covered(s, d, t) || (d == next.epoch && t == next.tick)
    ensures CoverageOk(s', h', f')
  {
    forall e, t ensures Covered(s', e, t) <==> Seen(h', f', e, t) && t !in f'.lost && t !in f'.pending {
      assert t in f'.lost + f'.pending <==> t in f.lost + f.pending;
      assert Seen(h', f', e, t) <==> Seen(h, f, e, t) || (e == next.epoch && t == next.tick);
    }
  }

  /** Replacing the list of an epoch keeps lists well formed and epochs apart. */
  lemma ListReplaced(s: State, s': State, epoch: uint32, ivs: seq<Interval>)
    requires ListsOk(s) && EpochsApart(s) && ListOk(ivs)
    requires s'.intervals == s.intervals[epoch := ivs]
    requires forall d :: d in s.intervals && d < epoch ==> Below(s.intervals[d], ivs)
    requires forall d :: d in s.intervals && d > epoch ==> Below(ivs, s.intervals[d])
    ensures ListsOk(s') && EpochsApart(s')
  {
    forall d, e | d in s'.intervals && e in s'.intervals && d < e
      ensures Below(s'.intervals[d], s'.intervals[e])
    {
      assert d != epoch ==> d in s.intervals;
      assert e != epoch ==> e in s.intervals;
    }
  }

  lemma ListsAfterGap(s: State, s': State, next: ProcessedTick)
    requires ListsOk(s) && EpochsApart(s) && AllUpTo(s, next) && s'.intervals == Appended(s, next)
    ensures ListsOk(s') && EpochsApart(s') && End(s'.intervals[next.epoch]) == next.tick
  {
    var new' := s'.intervals[next.epoch];
    AppendedListOk(s, next);
    forall d | d in s.intervals && d < next.epoch ensures Below(s.intervals[d], new') {
      BelowAppended(s, next, d);
    }
    forall d | d in s.intervals && d > next.epoch ensures Below(new', s.intervals[d]) {
      AboveAppended(s, next, d);
    }
    ListReplaced(s, s', next.epoch, new');
  }

  lemma AppendedListOk(s: State, next: ProcessedTick)
    requires ListsOk(s) && AllUpTo(s, next)
    ensures ListOk(IntervalsOf(s, next.epoch) + [Interval(next.tick, next.tick)])
  {
    var old' := IntervalsOf(s, next.epoch);
    forall i | 0 <= i < |old'| ensures old'[i].first <= next.tick {
      assert UpTo(next, next.epoch, s.intervals[next.epoch][i]);
    }
  }

  lemma BelowAppended(s: State, next: ProcessedTick, d: uint32)
    requires EpochsApart(s) && AllUpTo(s, next) && d in s.intervals && d < next.epoch
    ensures Below(s.intervals[d], IntervalsOf(s, next.epoch) + [Interval(next.tick, next.tick)])
  {
    if next.epoch in s.intervals {
      assert Below(s.intervals[d], s.intervals[next.epoch]);
    }
    forall i | 0 <= i < |s.intervals[d]| ensures s.intervals[d][i].last < next.tick {
      assert UpTo(next, d, s.intervals[d][i]);
    }
  }

  lemma AboveAppended(s: State, next: ProcessedTick, d: uint32)
    requires EpochsApart(s) && AllUpTo(s, next) && d in s.intervals && d > next.epoch
    ensures Below(IntervalsOf(s, next.epoch) + [Interval(next.tick, next.tick)], s.intervals[d])
  {
    if next.epoch in s.intervals {
      assert Below(s.intervals[next.epoch], s.intervals[d]);
    }
    forall i | 0 <= i < |s.intervals[d]| ensures next.tick < s.intervals[d][i].first {
      assert UpTo(next, d, s.intervals[d][i]);
    }
  }

  lemma FateBefore(s: State, h: History, f: Fate, next: ProcessedTick)
    requires FateOk(s, h, f) && LastOf(h) < next.tick
    ensures next.tick !in f.lost && next.tick !in f.pending
  {}

  /** What a pass across a gap that stopped early leaves: the tick is a stray, and what was pending is lost
      if the newest interval is no longer the one to extend. */
  function StoppedFate(f: Fate, last: ProcessedTick, next: ProcessedTick): (f': Fate)
  {
    if next.epoch == last.epoch then Fate(f.lost + f.pending, {}, f.stray + {next})
    else Fate(f.lost, f.pending, f.stray + {next})
  }

  lemma StoppedGapKeepsInv(s: State, h: History, f: Fate, e: Attempt)
    requires Inv(s, h, f) && WellFormed(s, e.info) && NotBehind(s, e.info) && Due(s, e.info)
    requires Next(s, e.info).tick > LastProcessed(s, e.info).tick + 1 && 1 <= e.writes <= 2
    ensures Inv(Play(s, e), h, StoppedFate(f, LastProcessed(s, e.info), Next(s, e.info)))
  {
    HistoryGrows(s, h, e.info);
    GapStep(s, e);
    var last, next, s' := LastProcessed(s, e.info), Next(s, e.info), Play(s, e);
    var f' := StoppedFate(f, last, next);
    AllUpToNext(s, h, f, e.info);
    ListsAfterGap(s, s', next);
    CoverageWithNew(s, s', next);
    FateBefore(s, h, f, next);
    CoverageJoined(s, s', h, f, h, f', next);
    StrayAdded(h, f, last, next);
    assert Open(h, f', next);
    FateStopped(s, s', h, f, last, next);
    SkipsBelowStray(s, s', h, f, f', last, next);
  }

  lemma FateStopped(s: State, s': State, h: History, f: Fate, last: ProcessedTick, next: ProcessedTick)
    requires FateOk(s, h, f) && LastOf(h) < next.tick && s'.intervals == Appended(s, next)
    requires h != [] ==> last == h[|h| - 1]
    ensures FateOk(s', h, StoppedFate(f, last, next))
  {
    var f' := StoppedFate(f, last, next);
    assert Open(h, f', next);
    if h != [] && next.epoch != last.epoch {
      OthersAhead(h, f, f', next, last.epoch);
    }
  }

  lemma OthersAhead(h: History, f: Fate, f': Fate, next: ProcessedTick, e: uint32)
    requires f'.stray == f.stray + {next} && next.epoch != e
    ensures Ahead(h, f', e) <==> Ahead(h, f, e)
  {
    if Ahead(h, f, e) {
      var x :| Open(h, f, x) && x.epoch == e;
      assert Open(h, f', x);
    }
    if Ahead(h, f', e) {
      var x :| Open(h, f', x) && x.epoch == e;
      assert Open(h, f, x);
    }
  }

  lemma StrayAdded(h: History, f: Fate, last: ProcessedTick, next: ProcessedTick)
    requires StrayOk(h, f) && HistoryOk(h + [next]) && LastOf(h) + 1 < next.tick
    requires next.tick !in f.lost && next.tick !in f.pending
    ensures StrayOk(h, StoppedFate(f, last, next))
  {
    TicksBefore(h, next);
    assert (h + [next])[|h|] == next;
    if h != [] {
      assert (h + [next])[|h| - 1].epoch <= (h + [next])[|h|].epoch;
    }
  }

  lemma SkipsBelowStray(s: State, s': State, h: History, f: Fate, f': Fate, last: ProcessedTick, next: ProcessedTick)
    requires SkipsOk(s, h, f) && HistoryOk(h) && f.stray <= f'.stray && Open(h, f', next)
    requires last.tick == LastOf(h) && last.tick + 1 < next.tick
    requires s'.skipped == s.skipped || s'.skipped == s.skipped + [SkipBetween(last, next)]
    ensures SkipsOk(s', h, f')
  {
    forall t ensures Skipped(s', t) <==> Skipped(s, t) || (s'.skipped != s.skipped && LastOf(h) < t < next.tick) {
      if s'.skipped == s.skipped + [SkipBetween(last, next)] {
        SkippedWithNew(s, s', last, next, t);
      } else {
        assert Skipped(s', t) == Skipped(s, t);
      }
    }
    forall t | Skipped(s', t) && Processed(h, t) ensures Overtaken(h, f', t) {
      OvertakenKept(h, f, h, f', t);
    }
    forall t | t > LastOf(h) && Skipped(s', t) ensures exists x :: Open(h, f', x) && t < x.tick {
      if Skipped(s, t) {
        var x :| Open(h, f, x) && t < x.tick;
        assert Open(h, f', x);
      }
    }
  }

  lemma OvertakenKept(h: History, f: Fate, h': History, f': Fate, t: int)
    requires Overtaken(h, f, t) && (forall x :: x in h ==> x in h')
    requires forall x :: x in f.stray ==> x in h' || x in f'.stray
    ensures Overtaken(h', f', t)
  {
    var p, x :| Overtakes(h, f, p, x) && p.tick == t;
    assert Overtakes(h', f', p, x);
  }

  /** The next tick lies in a skipped range only below a stray of a newer epoch. */
  lemma NextOvertaken(s: State, h: History, f: Fate, next: ProcessedTick, f': Fate)
    requires SkipsOk(s, h, f) && LastOf(h) < next.tick && f'.stray == f.stray - {next} && Skipped(s, next.tick)
    requires forall x :: x in f.stray ==> PlacedFor(next, x.epoch, x.tick)
    ensures Overtaken(h + [next], f', next.tick)
  {
    var x :| Open(h, f, x) && next.tick < x.tick;
    assert Overtakes(h + [next], f', next, x);
  }

  lemma OvertakenAfter(s: State, h: History, f: Fate, next: ProcessedTick, f': Fate)
    requires SkipsOk(s, h, f) && LastOf(h) < next.tick && f'.stray == f.stray - {next}
    requires forall x :: x in f.stray ==> PlacedFor(next, x.epoch, x.tick)
    ensures forall t :: Skipped(s, t) && Processed(h + [next], t) ==> Overtaken(h + [next], f', t)
  {
    ProcessedSnoc(h, next);
    forall t | Skipped(s, t) && Processed(h + [next], t) ensures Overtaken(h + [next], f', t) {
      if Processed(h, t) {
        assert forall x :: x in h ==> x in h + [next];
        OvertakenKept(h, f, h + [next], f', t);
      } else {
        NextOvertaken(s, h, f, next, f');
      }
    }
  }

  lemma SkippedWithNew(s: State, s': State, last: ProcessedTick, next: ProcessedTick, t: int)
    requires last.tick + 1 < next.tick && s'.skipped == s.skipped + [SkipBetween(last, next)]
    ensures s'.skipped != s.skipped
    ensures Skipped(s', t) <==> Skipped(s, t) || last.tick < t < next.tick
  {
    assert |s'.skipped| == |s.skipped| + 1;
    if Skipped(s, t) {
      var i :| 0 <= i < |s.skipped| && s.skipped[i].start <= t <= s.skipped[i].end;
      assert s'.skipped[i] == s.skipped[i];
    }
    if last.tick < t < next.tick {
      assert s'.skipped[|s.skipped|] == SkipBetween(last, next);
    }
  }

  /** A pass across a gap that moved the marker. Strays below the new marker stay; one at the new marker
      has been processed after all. */
  lemma GapKeepsInv(s: State, h: History, f: Fate, e: Attempt)
    requires Inv(s, h, f) && WellFormed(s, e.info) && NotBehind(s, e.info) && Due(s, e.info)
    requires Next(s, e.info).tick > LastProcessed(s, e.info).tick + 1 && e.writes >= 3
    ensures Inv(Play(s, e), h + [Next(s, e.info)], Fate(f.lost + f.pending, {}, f.stray - {Next(s, e.info)}))
  {
    HistoryGrows(s, h, e.info);
    GapStep(s, e);
    var last, next, s' := LastProcessed(s, e.info), Next(s, e.info), Play(s, e);
    var h', f' := h + [next], Fate(f.lost + f.pending, {}, f.stray - {next});
    AllUpToNext(s, h, f, e.info);
    ListsAfterGap(s, s', next);
    CoverageWithNew(s, s', next);
    FateBefore(s, h, f, next);
    CoverageJoined(s, s', h, f, h', f', next);
    StraysBehind(s, h, f, e.info);
    StraysSettled(h, f, next, f.lost + f.pending, {});
    SkipsSettled(s, s', h, f, last, next);
    FateSettled(s', h, f, next, f.lost + f.pending, f.stray - {next});
  }

  /** Every stray is placed where the next tick can follow. */
  lemma StraysBehind(s: State, h: History, f: Fate, info: TickInfo)
    requires Inv(s, h, f) && WellFormed(s, info) && Due(s, info) && NotBehind(s, info)
    ensures forall x :: x in f.stray ==> PlacedFor(Next(s, info), x.epoch, x.tick)
  {
    forall x | x in f.stray ensures PlacedFor(Next(s, info), x.epoch, x.tick) {
      assert Seen(h, f, x.epoch, x.tick);
      SeenUpToNext(s, h, f, info, x.epoch, x.tick);
    }
  }

  lemma StraysSettled(h: History, f: Fate, next: ProcessedTick, lost: set<int>, pending: set<int>)
    requires StrayOk(h, f) && HistoryOk(h + [next]) && lost + pending <= f.lost + f.pending + {next.tick}
    requires forall x :: x in f.stray ==> PlacedFor(next, x.epoch, x.tick)
    ensures StrayOk(h + [next], Fate(lost, pending, f.stray - {next}))
    ensures !Ahead(h + [next], Fate(lost, pending, f.stray - {next}), next.epoch)
  {
    ProcessedSnoc(h, next);
    var h', f' := h + [next], Fate(lost, pending, f.stray - {next});
    assert h'[|h'| - 1] == next;
    forall x | x in f'.stray
      ensures x.tick != next.tick && x.tick !in lost && x.tick !in pending && StrayPlaced(next, x)
    {
      assert x.tick !in f.lost + f.pending;
      assert x.tick !in lost + pending;
    }
    assert forall x :: Open(h', f', x) ==> x.epoch != next.epoch;
  }

  lemma ProcessedSnoc(h: History, next: ProcessedTick)
    ensures forall t :: Processed(h + [next], t) <==> Processed(h, t) || t == next.tick
  {
    var h' := h + [next];
    forall t ensures Processed(h', t) <==> Processed(h, t) || t == next.tick {
      assert h'[|h|] == next;
      assert forall i :: 0 <= i < |h| ==> h'[i] == h[i];
    }
  }

  lemma SkipsSettled(s: State, s': State, h: History, f: Fate, last: ProcessedTick, next: ProcessedTick)
    requires SkipsOk(s, h, f) && HistoryOk(h) && HistoryOk(h + [next])
    requires last.tick == LastOf(h) && last.tick + 1 < next.tick && s'.skipped == s.skipped + [SkipBetween(last, next)]
    requires forall x :: x in f.stray ==> PlacedFor(next, x.epoch, x.tick)
    ensures SkipsOk(s', h + [next], Fate(f.lost + f.pending, {}, f.stray - {next}))
  {
    ProcessedSnoc(h, next);
    TicksBefore(h, next);
    forall t ensures Skipped(s', t) <==> Skipped(s, t) || last.tick < t < next.tick {
      SkippedWithNew(s, s', last, next, t);
    }
    StraysBeyond(s, h, f, next, Fate(f.lost + f.pending, {}, f.stray - {next}));
    OvertakenAfter(s, h, f, next, Fate(f.lost + f.pending, {}, f.stray - {next}));
  }

  /** Skipped ticks beyond the next tick still have a stray above them. */
  lemma StraysBeyond(s: State, h: History, f: Fate, next: ProcessedTick, f': Fate)
    requires SkipsOk(s, h, f) && LastOf(h) < next.tick && f'.stray == f.stray - {next}
    ensures forall t :: t > next.tick && Skipped(s, t) ==> exists x :: Open(h + [next], f', x) && t < x.tick
  {
    forall t | t > next.tick && Skipped(s, t) ensures exists x :: Open(h + [next], f', x) && t < x.tick {
      var x :| Open(h, f, x) && t < x.tick;
      assert Open(h + [next], f', x);
    }
  }

  /** Nothing is pending when the newest interval ends at the marker. */
  lemma FateSettled(s': State, h: History, f: Fate, next: ProcessedTick, lost: set<int>, stray: set<ProcessedTick>)
    requires forall t :: t in f.lost || t in f.pending ==> h != [] && 1 <= t <= LastOf(h)
    requires HistoryOk(h + [next])
    requires next.epoch in s'.intervals && s'.intervals[next.epoch] != [] ==> End(s'.intervals[next.epoch]) == next.tick
    requires lost <= f.lost + f.pending + {next.tick}
    ensures FateOk(s', h + [next], Fate(lost, {}, stray))
  {
    TicksBefore(h, next);
    assert (h + [next])[|h|] == next;
    forall t | t in lost ensures 1 <= t <= next.tick {
      assert t in f.lost + f.pending + {next.tick};
    }
  }

  // ---------- a pass onto the next tick ----------

  /** Nothing has been written beyond the marker in the current epoch if the next tick follows there. */
  lemma NotAhead(s: State, h: History, f: Fate, info: TickInfo)
    requires Inv(s, h, f) && WellFormed(s, info) && Due(s, info) && NotBehind(s, info)
    requires h != [] && Next(s, info).tick == LastOf(h) + 1 && Next(s, info).epoch == h[|h| - 1].epoch
    ensures !Ahead(h, f, h[|h| - 1].epoch)
  {
    if Ahead(h, f, h[|h| - 1].epoch) {
      var x :| Open(h, f, x) && x.epoch == h[|h| - 1].epoch;
      OpenBound(s, h, f, info, x);
    }
  }

  /** Strays lie in stored intervals. */
  lemma StrayHasList(s: State, h: History, f: Fate, x: ProcessedTick)
    requires CoverageOk(s, h, f) && StrayOk(h, f) && x in f.stray
    ensures x.epoch in s.intervals
  {
    assert Seen(h, f, x.epoch, x.tick);
    assert Covered(s, x.epoch, x.tick);
  }

  lemma StraysApart(f: Fate, next: ProcessedTick)
    requires next !in f.stray && forall x :: x in f.stray ==> PlacedFor(next, x.epoch, x.tick)
    ensures forall x :: x in f.stray ==> x.tick != next.tick
    ensures f.stray - {next} == f.stray
  {}

  lemma SkipsKept(s: State, s': State, h: History, f: Fate, next: ProcessedTick, f': Fate)
    requires SkipsOk(s, h, f) && s'.skipped == s.skipped && f'.stray == f.stray - {next}
    requires HistoryOk(h + [next]) && next.tick == LastOf(h) + 1
    requires forall x :: x in f.stray ==> PlacedFor(next, x.epoch, x.tick)
    ensures SkipsOk(s', h + [next], f')
  {
    ProcessedSnoc(h, next);
    TicksBefore(h, next);
    forall t ensures Skipped(s', t) == Skipped(s, t) {}
    assert LastOf(h + [next]) == next.tick;
    StraysBeyond(s, h, f, next, f');
    OvertakenAfter(s, h, f, next, f');
  }

  lemma ExtendedCoverage(ivs: seq<Interval>, tick: uint32)
    requires ListOk(ivs) && End(ivs) <= tick
    ensures ListOk(Extended(ivs, tick)) && |Extended(ivs, tick)| == |ivs|
    ensures forall t :: InIntervals(Extended(ivs, tick), t) <==> InIntervals(ivs, t) || End(ivs) < t <= tick
  {
    var ivs' := Extended(ivs, tick);
    var n := |ivs| - 1;
    forall t ensures InIntervals(ivs', t) <==> InIntervals(ivs, t) || End(ivs) < t <= tick {
      if InIntervals(ivs, t) {
        var i :| 0 <= i < |ivs| && ivs[i].first <= t <= ivs[i].last;
        assert ivs'[i].first <= t <= ivs'[i].last;
      }
      if End(ivs) < t <= tick {
        assert ivs'[n].first <= t <= ivs'[n].last;
      }
      if InIntervals(ivs', t) {
        var i :| 0 <= i < |ivs'| && ivs'[i].first <= t <= ivs'[i].last;
        assert i < n ==> ivs[i] == ivs'[i];
        assert i == n && t <= End(ivs) ==> ivs[n].first <= t <= ivs[n].last;
      }
    }
  }

  /** Without the interval write, the new tick joins the uncovered ones. */
  lemma CoverageUnfinished(s: State, s': State, h: History, next: ProcessedTick, f: Fate, f': Fate)
    requires CoverageOk(s, h, f) && s'.intervals == s.intervals
    requires forall i :: 0 <= i < |h| ==> h[i].tick < next.tick
    requires f'.lost + f'.pending == f.lost + f.pending + {next.tick} && f'.stray == f.stray
    requires forall x :: x in f.stray ==> x.tick != next.tick
    ensures CoverageOk(s', h + [next], f')
  {
    var h' := h + [next];
    assert forall x :: x in h' <==> x in h || x == next;
    forall e, t ensures Covered(s', e, t) <==> Seen(h', f', e, t) && t !in f'.lost && t !in f'.pending {
      assert Covered(s', e, t) == Covered(s, e, t);
      assert t in f'.lost + f'.pending <==> t in f.lost + f.pending + {next.tick};
      assert t != next.tick ==> (Seen(h', f', e, t) <==> Seen(h, f, e, t));
      assert t == next.tick ==> !Seen(h, f, e, t);
    }
  }

  /** The next tick continues the epoch of the last one. */
  ghost predicate Follows(h: History, next: ProcessedTick)
  {
    h != [] && HistoryOk(h + [next]) && next.tick == LastOf(h) + 1 && next.epoch == h[|h| - 1].epoch
  }

  lemma EndUpToMarker(s: State, h: History, f: Fate, e: uint32)
    requires Inv(s, h, f) && !Ahead(h, f, e) && e in s.intervals
    ensures s.intervals[e] != [] && End(s.intervals[e]) <= LastOf(h)
  {
    EndsAreSeen(s, h, f, e, |s.intervals[e]| - 1);
    NotAheadSeen(h, f, e, End(s.intervals[e]));
  }

  /** What the interval write of the next tick adds: the pending ticks and that tick. */
  lemma ExtensionAdds(s: State, h: History, f: Fate, next: ProcessedTick, t: int)
    requires Inv(s, h, f) && !Ahead(h, f, next.epoch) && Follows(h, next) && next.epoch in s.intervals
    requires s.intervals[next.epoch] != []
    ensures End(s.intervals[next.epoch]) < t <= next.tick <==> t in f.pending || t == next.tick
  {
    EndUpToMarker(s, h, f, next.epoch);
  }

  lemma PendingIsSeen(s: State, h: History, f: Fate, e: uint32, t: int)
    requires Inv(s, h, f) && t in f.pending
    ensures h != [] && ProcessedTick(t, h[|h| - 1].epoch) in h
    ensures Seen(h, f, e, t) ==> e == h[|h| - 1].epoch
  {
    var last := h[|h| - 1].epoch;
    var i :| 0 <= i < |h| && h[i] == ProcessedTick(t, last);
    if Seen(h, f, e, t) && ProcessedTick(t, e) in h {
      var j :| 0 <= j < |h| && h[j] == ProcessedTick(t, e);
      assert i == j;
    }
  }

  /** The interval write brings in the pending ticks and the new one. */
  lemma CoverageExtended(s: State, s': State, h: History, f: Fate, next: ProcessedTick)
    requires Inv(s, h, f) && !Ahead(h, f, next.epoch) && Follows(h, next) && next.epoch in s.intervals
    requires s'.intervals == s.intervals[next.epoch := Extended(s.intervals[next.epoch], next.tick)]
    ensures CoverageOk(s', h + [next], Fate(f.lost, {}, f.stray))
  {
    var ivs := s.intervals[next.epoch];
    EndUpToMarker(s, h, f, next.epoch);
    ExtendedCoverage(ivs, next.tick);
    forall e, t
      ensures Covered(s', e, t) <==> Seen(h + [next], Fate(f.lost, {}, f.stray), e, t) && t !in f.lost
    {
      CoverageExtendedAt(s, s', h, f, next, e, t);
    }
  }

  lemma CoverageExtendedAt(s: State, s': State, h: History, f: Fate, next: ProcessedTick, e: uint32, t: int)
    requires Inv(s, h, f) && !Ahead(h, f, next.epoch) && Follows(h, next) && next.epoch in s.intervals
    requires s.intervals[next.epoch] != []
    requires next.epoch in s'.intervals && s'.intervals == s.intervals[next.epoch := s'.intervals[next.epoch]]
    requires InIntervals(s'.intervals[next.epoch], t)
             <==> InIntervals(s.intervals[next.epoch], t) || End(s.intervals[next.epoch]) < t <= next.tick
    ensures Covered(s', e, t) <==> Seen(h + [next], Fate(f.lost, {}, f.stray), e, t) && t !in f.lost
  {
    TicksBefore(h, next);
    FateBefore(s, h, f, next);
    ExtensionAdds(s, h, f, next, t);
    assert Covered(s, e, t) <==> Seen(h, f, e, t) && t !in f.lost && t !in f.pending;
    assert Seen(h + [next], Fate(f.lost, {}, f.stray), e, t)
           <==> Seen(h, f, e, t) || (e == next.epoch && t == next.tick);
    if t in f.pending {
      PendingIsSeen(s, h, f, e, t);
    }
    if e != next.epoch {
      assert Covered(s', e, t) == Covered(s, e, t);
    }
  }

  lemma ListsAfterExtension(s: State, s': State, next: ProcessedTick)
    requires ListsOk(s) && EpochsApart(s) && AllUpTo(s, next) && next.epoch in s.intervals
    requires s'.intervals == s.intervals[next.epoch := Extended(s.intervals[next.epoch], next.tick)]
    ensures ListsOk(s') && EpochsApart(s') && End(s'.intervals[next.epoch]) == next.tick
  {
    var ivs := s.intervals[next.epoch];
    var ivs' := Extended(ivs, next.tick);
    assert UpTo(next, next.epoch, ivs[|ivs| - 1]);
    ExtendedCoverage(ivs, next.tick);
    forall d | d in s.intervals && d < next.epoch ensures Below(s.intervals[d], ivs') {
      assert Below(s.intervals[d], ivs);
    }
    forall d | d in s.intervals && d > next.epoch ensures Below(ivs', s.intervals[d]) {
      AboveExtended(s, next, d);
    }
    ListReplaced(s, s', next.epoch, ivs');
  }

  lemma AboveExtended(s: State, next: ProcessedTick, d: uint32)
    requires EpochsApart(s) && AllUpTo(s, next) && next.epoch in s.intervals && d in s.intervals && d > next.epoch
    ensures Below(Extended(s.intervals[next.epoch], next.tick), s.intervals[d])
  {
    assert Below(s.intervals[next.epoch], s.intervals[d]);
    forall i | 0 <= i < |s.intervals[d]| ensures next.tick < s.intervals[d][i].first {
      assert UpTo(next, d, s.intervals[d][i]);
    }
  }

  /** All strays and intervals are placed where the next tick can follow. */
  ghost predicate Placed(s: State, f: Fate, next: ProcessedTick)
  {
    AllUpTo(s, next) && forall x :: x in f.stray ==> PlacedFor(next, x.epoch, x.tick)
  }

  lemma AllPlaced(s: State, h: History, f: Fate, info: TickInfo)
    requires Inv(s, h, f) && WellFormed(s, info) && Due(s, info) && NotBehind(s, info)
    ensures Placed(s, f, Next(s, info))
  {
    AllUpToNext(s, h, f, info);
    StraysBehind(s, h, f, info);
  }

  /** The interval write of a contiguous step in an open epoch. */
  lemma ExtensionKeepsInv(s: State, s': State, h: History, f: Fate, next: ProcessedTick)
    requires Inv(s, h, f) && !Ahead(h, f, next.epoch) && Follows(h, next) && next.epoch in s.intervals
    requires Placed(s, f, next) && next !in f.stray && s'.last == Some(next) && s'.skipped == s.skipped
    requires s'.intervals == s.intervals[next.epoch := Extended(s.intervals[next.epoch], next.tick)]
    ensures Inv(s', h + [next], Fate(f.lost, {}, f.stray))
  {
    StraysApart(f, next);
    CoverageExtended(s, s', h, f, next);
    ListsAfterExtension(s, s', next);
    FateSettled(s', h, f, next, f.lost, f.stray);
    StraysSettled(h, f, next, f.lost, {});
    SkipsKept(s, s', h, f, next, Fate(f.lost, {}, f.stray));
  }

  /** The unrecorded tick joins the pending ones. */
  lemma FatePending(s: State, s': State, h: History, f: Fate, next: ProcessedTick)
    requires FateOk(s, h, f) && h != [] && !Ahead(h, f, next.epoch) && s'.intervals == s.intervals
    requires Follows(h, next) && !Ahead(h + [next], Fate(f.lost, f.pending + {next.tick}, f.stray), next.epoch)
    requires next.epoch in s.intervals && s.intervals[next.epoch] != [] && End(s.intervals[next.epoch]) < next.tick
    ensures FateOk(s', h + [next], Fate(f.lost, f.pending + {next.tick}, f.stray))
  {
    var h' := h + [next];
    assert forall x :: x in h' <==> x in h || x == next;
    assert LastOf(h') == next.tick && h'[|h'| - 1] == next;
    FateBefore(s, h, f, next);
  }

  /** A contiguous step in an open epoch that stops before its interval write. */
  lemma PendingKeepsInv(s: State, s': State, h: History, f: Fate, next: ProcessedTick)
    requires Inv(s, h, f) && !Ahead(h, f, next.epoch) && Follows(h, next) && next.epoch in s.intervals
    requires Placed(s, f, next) && next !in f.stray
    requires s'.last == Some(next) && s'.intervals == s.intervals && s'.skipped == s.skipped
    ensures Inv(s', h + [next], Fate(f.lost, f.pending + {next.tick}, f.stray))
  {
    var f' := Fate(f.lost, f.pending + {next.tick}, f.stray);
    EndUpToMarker(s, h, f, next.epoch);
    TicksBefore(h, next);
    StraysApart(f, next);
    CoverageUnfinished(s, s', h, next, f, f');
    StraysSettled(h, f, next, f.lost, f.pending + {next.tick});
    FatePending(s, s', h, f, next);
    SkipsKept(s, s', h, f, next, f');
  }

  lemma OneIntervalCovers(s: State, s': State, next: ProcessedTick)
    requires next.epoch !in s.intervals && s'.intervals == s.intervals[next.epoch := [Interval(next.tick, next.tick)]]
    ensures forall d, t :: Covered(s', d, t) <==> Covered(s, d, t) || (d == next.epoch && t == next.tick)
  {
    assert IntervalsOf(s, next.epoch) + [Interval(next.tick, next.tick)] == [Interval(next.tick, next.tick)];
    CoverageWithNew(s, s', next);
  }

  /** The first tick of an epoch, recorded in its own interval. */
  lemma OpeningKeepsInv(s: State, s': State, h: History, f: Fate, next: ProcessedTick)
    requires Inv(s, h, f) && HistoryOk(h + [next]) && next.tick == LastOf(h) + 1
    requires Placed(s, f, next) && next !in f.stray
    requires next.epoch !in s.intervals && s'.last == Some(next) && s'.skipped == s.skipped
    requires s'.intervals == s.intervals[next.epoch := [Interval(next.tick, next.tick)]]
    ensures Inv(s', h + [next], Fate(f.lost + f.pending, {}, f.stray))
  {
    var f' := Fate(f.lost + f.pending, {}, f.stray);
    StraysApart(f, next);
    FateBefore(s, h, f, next);
    OneIntervalCovers(s, s', next);
    CoverageJoined(s, s', h, f, h + [next], f', next);
    OpenedLists(s, s', next);
    FateSettled(s', h, f, next, f.lost + f.pending, f.stray);
    StraysSettled(h, f, next, f.lost + f.pending, {});
    SkipsKept(s, s', h, f, next, f');
  }

  lemma OpenedLists(s: State, s': State, next: ProcessedTick)
    requires ListsOk(s) && EpochsApart(s) && AllUpTo(s, next) && next.epoch !in s.intervals
    requires s'.intervals == s.intervals[next.epoch := [Interval(next.tick, next.tick)]]
    ensures ListsOk(s') && EpochsApart(s')
  {
    assert IntervalsOf(s, next.epoch) + [Interval(next.tick, next.tick)] == [Interval(next.tick, next.tick)];
    ListsAfterGap(s, s', next);
  }

  /** The first tick of an epoch, stopped before its interval write. */
  lemma LosingKeepsInv(s: State, s': State, h: History, f: Fate, next: ProcessedTick)
    requires Inv(s, h, f) && HistoryOk(h + [next]) && next.tick == LastOf(h) + 1
    requires Placed(s, f, next) && next !in f.stray && next.epoch !in s.intervals
    requires s'.last == Some(next) && s'.intervals == s.intervals && s'.skipped == s.skipped
    ensures Inv(s', h + [next], Fate(f.lost + f.pending + {next.tick}, {}, f.stray))
  {
    var f' := Fate(f.lost + f.pending + {next.tick}, {}, f.stray);
    StraysApart(f, next);
    FateSettled(s', h, f, next, f.lost + f.pending + {next.tick}, f.stray);
    TicksBefore(h, next);
    CoverageUnfinished(s, s', h, next, f, f');
    StraysSettled(h, f, next, f.lost + f.pending + {next.tick}, {});
    SkipsKept(s, s', h, f, next, f');
  }

  /** In a newer epoch, every interval holds just the next tick. */
  lemma OnlyNextStored(s: State, h: History, f: Fate, next: ProcessedTick, i: nat)
    requires Inv(s, h, f) && Placed(s, f, next) && h != [] && next.tick == LastOf(h) + 1
    requires next.epoch > h[|h| - 1].epoch && next.epoch in s.intervals && i < |s.intervals[next.epoch]|
    ensures s.intervals[next.epoch][i] == Interval(next.tick, next.tick) && next in f.stray
  {
    var iv := s.intervals[next.epoch][i];
    EndsAreSeen(s, h, f, next.epoch, i);
    assert UpTo(next, next.epoch, iv);
    if iv.first <= LastOf(h) {
      SeenUpToMarker(h, f, next.epoch, iv.first);
    }
  }

  /** The next tick is a stray of the new epoch that gets processed after all: its interval is there. */
  lemma StrayTakenKeepsInv(s: State, s': State, h: History, f: Fate, next: ProcessedTick)
    requires Inv(s, h, f) && Placed(s, f, next) && h != [] && HistoryOk(h + [next]) && next.tick == LastOf(h) + 1
    requires next.epoch > h[|h| - 1].epoch && next.epoch in s.intervals
    requires s'.last == Some(next) && s'.skipped == s.skipped && s'.intervals == s.intervals
    ensures Inv(s', h + [next], Fate(f.lost + f.pending, {}, f.stray - {next}))
  {
    var f' := Fate(f.lost + f.pending, {}, f.stray - {next});
    OnlyNextStored(s, h, f, next, |s.intervals[next.epoch]| - 1);
    FateBefore(s, h, f, next);
    assert Seen(h, f, next.epoch, next.tick);
    assert Covered(s, next.epoch, next.tick);
    assert forall d, t :: Covered(s', d, t) == Covered(s, d, t);
    CoverageJoined(s, s', h, f, h + [next], f', next);
    FateSettled(s', h, f, next, f.lost + f.pending, f.stray - {next});
    StraysSettled(h, f, next, f.lost + f.pending, {});
    SkipsKept(s, s', h, f, next, f');
  }

  lemma OpenEpochKeepsInv(s: State, h: History, f: Fate, e: Attempt)
    requires Inv(s, h, f) && WellFormed(s, e.info) && NotBehind(s, e.info) && Due(s, e.info) && e.writes > 0
    requires h != [] && Next(s, e.info).tick == LastProcessed(s, e.info).tick + 1
    requires Next(s, e.info).epoch == LastProcessed(s, e.info).epoch && Next(s, e.info).epoch in s.intervals
    ensures Inv(Play(s, e), h + [Next(s, e.info)], NextFate(s, f, e))
  {
    HistoryGrows(s, h, e.info);
    NextFollows(s, e.info);
    NotAhead(s, h, f, e.info);
    AllPlaced(s, h, f, e.info);
    var next := Next(s, e.info);
    assert next in f.stray ==> Open(h, f, next);
    ContiguousStep(s, e);
    if e.writes >= 2 {
      ExtensionKeepsInv(s, Play(s, e), h, f, next);
    } else {
      PendingKeepsInv(s, Play(s, e), h, f, next);
    }
  }

  /** Without processed ticks, no interval is stored in the epoch of a report of tick one. */
  lemma FirstEpochUnknown(s: State, h: History, f: Fate, info: TickInfo)
    requires Inv(s, h, f) && h == [] && WellFormed(s, info) && Due(s, info) && NotBehind(s, info)
    requires Next(s, info).tick == 1
    ensures Next(s, info).epoch !in s.intervals
  {
    var e := Next(s, info).epoch;
    AllUpToNext(s, h, f, info);
    if e in s.intervals {
      assert s.intervals[e] != [] && UpTo(Next(s, info), e, s.intervals[e][0]);
      EndsAreSeen(s, h, f, e, 0);
    }
  }

  lemma NewEpochKeepsInv(s: State, h: History, f: Fate, e: Attempt)
    requires Inv(s, h, f) && WellFormed(s, e.info) && NotBehind(s, e.info) && Due(s, e.info) && e.writes > 0
    requires Next(s, e.info).tick == LastProcessed(s, e.info).tick + 1 && Next(s, e.info).epoch !in s.intervals
    ensures Inv(Play(s, e), h + [Next(s, e.info)], NextFate(s, f, e))
  {
    HistoryGrows(s, h, e.info);
    NextFollows(s, e.info);
    AllPlaced(s, h, f, e.info);
    var next := Next(s, e.info);
    if next in f.stray {
      StrayHasList(s, h, f, next);
    }
    StraysApart(f, next);
    ContiguousStep(s, e);
    if e.writes >= 2 {
      OpeningKeepsInv(s, Play(s, e), h, f, next);
    } else {
      LosingKeepsInv(s, Play(s, e), h, f, next);
    }
  }

  lemma StrayEpochKeepsInv(s: State, h: History, f: Fate, e: Attempt)
    requires Inv(s, h, f) && WellFormed(s, e.info) && NotBehind(s, e.info) && Due(s, e.info) && e.writes > 0
    requires h != [] && Next(s, e.info).tick == LastProcessed(s, e.info).tick + 1
    requires Next(s, e.info).epoch != LastProcessed(s, e.info).epoch && Next(s, e.info).epoch in s.intervals
    ensures Inv(Play(s, e), h + [Next(s, e.info)], NextFate(s, f, e))
  {
    HistoryGrows(s, h, e.info);
    NextFollows(s, e.info);
    AllPlaced(s, h, f, e.info);
    ContiguousStep(s, e);
    var next := Next(s, e.info);
    var ivs := s.intervals[next.epoch];
    OnlyNextStored(s, h, f, next, |ivs| - 1);
    assert Extended(ivs, next.tick) == ivs;
    StrayTakenKeepsInv(s, Play(s, e), h, f, next);
  }

  lemma GapCases(s: State, h: History, f: Fate, e: Attempt)
    requires Inv(s, h, f) && WellFormed(s, e.info) && NotBehind(s, e.info) && Due(s, e.info) && e.writes > 0
    requires Next(s, e.info).tick > LastProcessed(s, e.info).tick + 1
    ensures Inv(Play(s, e), h + (if Marks(s, e) then [Next(s, e.info)] else []), NextFate(s, f, e))
  {
    HistoryGrows(s, h, e.info);
    NextFollows(s, e.info);
    GapStep(s, e);
    if e.writes >= 3 {
      GapKeepsInv(s, h, f, e);
    } else {
      StoppedGapKeepsInv(s, h, f, e);
      assert h + [] == h;
    }
  }

  /** One pass, stopped anywhere, keeps the invariant. */
  lemma PlayKeepsInv(s: State, h: History, f: Fate, e: Attempt)
    requires Inv(s, h, f) && WellFormed(s, e.info) && (Due(s, e.info) ==> NotBehind(s, e.info))
    ensures Inv(Play(s, e), h + (if Marks(s, e) then [Next(s, e.info)] else []), NextFate(s, f, e))
  {
    assert h + [] == h;
    if Due(s, e.info) {
      HistoryGrows(s, h, e.info);
      NextFollows(s, e.info);
      var last, next := LastProcessed(s, e.info), Next(s, e.info);
      WritesAcrossGap(s, e.info);
      if e.writes == 0 {
        assert Writes(s, e.info)[..0] == [];
      } else if next.tick > last.tick + 1 {
        GapCases(s, h, f, e);
      } else if next.epoch !in s.intervals {
        NewEpochKeepsInv(s, h, f, e);
      } else {
        if h == [] {
          FirstEpochUnknown(s, h, f, e.info);
        }
        if next.epoch == last.epoch {
          OpenEpochKeepsInv(s, h, f, e);
        } else {
          StrayEpochKeepsInv(s, h, f, e);
        }
      }
    }
  }

  lemma EmptyInv()
    ensures Inv(EMPTY, [], NO_LOSS)
  {}

  /** Every run, of passes that stop anywhere, keeps the invariant. */
  lemma {:induction false} RunKeepsInv(run: Run)
    requires RunOk(run)
    ensures Inv(Final(run), HistoryOf(run), FateOf(run))
  {
    if run == [] {
      EmptyInv();
    } else {
      var before := run[..|run| - 1];
      RunKeepsInv(before);
      PlayKeepsInv(Final(before), HistoryOf(before), FateOf(before), run[|run| - 1]);
    }
  }
}
