/** Intervals of more than one tick hold processed ticks only, over all runs: what an interruption leaves
    behind is always an interval of its own. */
module SolidRuns {
  import opened Bytes
  import opened Progress
  import opened ProgressRuns
  import opened RunInvariant
  import opened GateRuns

  /** Every tick of the interval was processed in the epoch. */
  ghost predicate AllIn(h: History, e: uint32, iv: Interval)
  {
    forall t: uint32 :: iv.first <= t <= iv.last ==> ProcessedTick(t, e) in h
  }

  ghost predicate SolidList(h: History, e: uint32, ivs: seq<Interval>)
  {
    forall i :: 0 <= i < |ivs| && ivs[i].first < ivs[i].last ==> AllIn(h, e, ivs[i])
  }

  ghost predicate Solid(s: State, h: History)
  {
    forall e :: e in s.intervals ==> SolidList(h, e, s.intervals[e])
  }

  lemma SolidGrows(h: History, next: ProcessedTick, e: uint32, ivs: seq<Interval>)
    requires SolidList(h, e, ivs)
    ensures SolidList(h + [next], e, ivs)
  {
    forall i | 0 <= i < |ivs| && ivs[i].first < ivs[i].last ensures AllIn(h + [next], e, ivs[i]) {
      assert AllIn(h, e, ivs[i]);
      assert forall x :: x in h ==> x in h + [next];
    }
  }

  /** The end of an interval that the next tick is about to extend was processed: a stray there would
      have no processed tick right after it, or be the last processed tick itself. */
  lemma EndProcessed(s: State, h: History, f: Fate, next: ProcessedTick)
    requires Inv(s, h, f) && Trailing(h, f) && !Ahead(h, f, next.epoch) && Follows(h, next) && next.epoch in s.intervals
    ensures s.intervals[next.epoch] != [] && Processed(h, End(s.intervals[next.epoch]))
  {
    EndUpToMarker(s, h, f, next.epoch);
    var end := End(s.intervals[next.epoch]);
    if end < LastOf(h) {
      PendingAfter(s, h, f, end + 1);
      assert Uncovered(f, end + 1);
      EndsAreSeen(s, h, f, next.epoch, |s.intervals[next.epoch]| - 1);
      SeenAboveZero(h, f, next.epoch, end);
    } else {
      assert h[|h| - 1].tick == end;
    }
  }

  lemma PendingAfter(s: State, h: History, f: Fate, t: int)
    requires FateOk(s, h, f) && h != [] && !Ahead(h, f, h[|h| - 1].epoch) && h[|h| - 1].epoch in s.intervals
    requires s.intervals[h[|h| - 1].epoch] != [] && End(s.intervals[h[|h| - 1].epoch]) < t <= LastOf(h)
    ensures t in f.pending
  {}

  lemma SeenAboveZero(h: History, f: Fate, e: uint32, t: int)
    requires HistoryOk(h) && StrayOk(h, f) && Seen(h, f, e, t)
    ensures t >= 1
  {
    if ProcessedTick(t, e) in h {
      var i :| 0 <= i < |h| && h[i] == ProcessedTick(t, e);
    }
  }

  lemma SeenIsIn(h: History, f: Fate, e: uint32, t: uint32)
    requires StrayOk(h, f) && Seen(h, f, e, t) && Processed(h, t)
    ensures ProcessedTick(t, e) in h
  {}

  /** The interval that the next tick extends, with that tick. */
  lemma ExtendedIsSolid(s: State, h: History, f: Fate, next: ProcessedTick)
    requires Inv(s, h, f) && Trailing(h, f) && !Ahead(h, f, next.epoch) && Follows(h, next) && next.epoch in s.intervals
    requires Solid(s, h) && s.intervals[next.epoch] != []
    ensures var ivs := s.intervals[next.epoch];
            AllIn(h + [next], next.epoch, Interval(ivs[|ivs| - 1].first, next.tick))
  {
    var ivs := s.intervals[next.epoch];
    var iv := ivs[|ivs| - 1];
    forall t: uint32 | iv.first <= t <= next.tick ensures ProcessedTick(t, next.epoch) in h + [next] {
      if t <= iv.last {
        OldTickIn(s, h, f, next, t);
      } else {
        NewTickIn(s, h, f, next, t);
      }
    }
  }

  lemma OldTickIn(s: State, h: History, f: Fate, next: ProcessedTick, t: uint32)
    requires Inv(s, h, f) && Trailing(h, f) && !Ahead(h, f, next.epoch) && Follows(h, next) && next.epoch in s.intervals
    requires Solid(s, h) && s.intervals[next.epoch] != []
    requires var ivs := s.intervals[next.epoch]; ivs[|ivs| - 1].first <= t <= ivs[|ivs| - 1].last
    ensures ProcessedTick(t, next.epoch) in h
  {
    var ivs := s.intervals[next.epoch];
    var iv := ivs[|ivs| - 1];
    if iv.first < iv.last {
      assert SolidList(h, next.epoch, ivs);
      assert AllIn(h, next.epoch, iv);
    } else {
      EndProcessed(s, h, f, next);
      EndsAreSeen(s, h, f, next.epoch, |ivs| - 1);
      SeenIsIn(h, f, next.epoch, t);
    }
  }

  lemma NewTickIn(s: State, h: History, f: Fate, next: ProcessedTick, t: uint32)
    requires Inv(s, h, f) && !Ahead(h, f, next.epoch) && Follows(h, next) && next.epoch in s.intervals
    requires s.intervals[next.epoch] != [] && End(s.intervals[next.epoch]) < t <= next.tick
    ensures ProcessedTick(t, next.epoch) in h + [next]
  {
    ExtensionAdds(s, h, f, next, t);
    assert next in h + [next];
    if t != next.tick {
      PendingIsSeen(s, h, f, next.epoch, t);
    }
  }

  // ---------- passes ----------

  lemma UnchangedIsSolid(s: State, s': State, h: History, next: ProcessedTick)
    requires Solid(s, h) && s'.intervals == s.intervals
    ensures Solid(s', h + [next])
  {
    forall e | e in s'.intervals ensures SolidList(h + [next], e, s'.intervals[e]) {
      SolidGrows(h, next, e, s.intervals[e]);
    }
  }

  /** A new interval of one tick is no matter. */
  lemma AppendedIsSolid(s: State, s': State, h: History, next: ProcessedTick)
    requires Solid(s, h) && s'.intervals == Appended(s, next)
    ensures Solid(s', h) && Solid(s', h + [next])
  {
    forall e | e in s'.intervals ensures SolidList(h, e, s'.intervals[e]) {
      if e == next.epoch {
        var ivs := IntervalsOf(s, e);
        assert SolidList(h, e, ivs);
        assert forall i :: 0 <= i < |ivs| ==> s'.intervals[e][i] == ivs[i];
      }
    }
    UnchangedIsSolid(s', s', h, next);
  }

  lemma ExtensionIsSolid(s: State, s': State, h: History, f: Fate, next: ProcessedTick)
    requires Inv(s, h, f) && Trailing(h, f) && !Ahead(h, f, next.epoch) && Follows(h, next) && next.epoch in s.intervals
    requires Solid(s, h) && s.intervals[next.epoch] != []
    requires s'.intervals == s.intervals[next.epoch := Extended(s.intervals[next.epoch], next.tick)]
    ensures Solid(s', h + [next])
  {
    ExtendedIsSolid(s, h, f, next);
    ReplacedIsSolid(s, s', h, next);
  }

  lemma ReplacedIsSolid(s: State, s': State, h: History, next: ProcessedTick)
    requires Solid(s, h) && next.epoch in s.intervals && s.intervals[next.epoch] != []
    requires s'.intervals == s.intervals[next.epoch := Extended(s.intervals[next.epoch], next.tick)]
    requires AllIn(h + [next], next.epoch,
                   Interval(s.intervals[next.epoch][|s.intervals[next.epoch]| - 1].first, next.tick))
    ensures Solid(s', h + [next])
  {
    forall e | e in s'.intervals ensures SolidList(h + [next], e, s'.intervals[e]) {
      SolidGrows(h, next, e, s.intervals[e]);
    }
  }

  lemma OpenedIsSolid(s: State, s': State, h: History, next: ProcessedTick)
    requires Solid(s, h) && next.epoch !in s.intervals
    requires s'.intervals == s.intervals[next.epoch := Extended([], next.tick)]
    ensures Solid(s', h + [next])
  {
    forall e | e in s'.intervals ensures SolidList(h + [next], e, s'.intervals[e]) {
      if e != next.epoch {
        SolidGrows(h, next, e, s.intervals[e]);
      }
    }
  }

  lemma ContiguousIsSolid(s: State, h: History, f: Fate, e: Attempt)
    requires Inv(s, h, f) && Trailing(h, f) && Solid(s, h)
    requires WellFormed(s, e.info) && NotBehind(s, e.info) && Due(s, e.info) && e.writes > 0
    requires Next(s, e.info).tick == LastProcessed(s, e.info).tick + 1
    ensures Solid(Play(s, e), h + [Next(s, e.info)])
  {
    var next := Next(s, e.info);
    HistoryGrows(s, h, e.info);
    NextFollows(s, e.info);
    ContiguousStep(s, e);
    if e.writes == 1 {
      UnchangedIsSolid(s, Play(s, e), h, next);
    } else if next.epoch !in s.intervals {
      OpenedIsSolid(s, Play(s, e), h, next);
    } else if h != [] && next.epoch == h[|h| - 1].epoch {
      NotAhead(s, h, f, e.info);
      EndUpToMarker(s, h, f, next.epoch);
      ExtensionIsSolid(s, Play(s, e), h, f, next);
    } else {
      StrayEpochIsSolid(s, h, f, e);
    }
  }

  lemma StrayEpochIsSolid(s: State, h: History, f: Fate, e: Attempt)
    requires Inv(s, h, f) && Solid(s, h) && e.writes >= 2
    requires WellFormed(s, e.info) && NotBehind(s, e.info) && Due(s, e.info)
    requires Next(s, e.info).tick == LastProcessed(s, e.info).tick + 1 && Next(s, e.info).epoch in s.intervals
    requires h != [] ==> Next(s, e.info).epoch != h[|h| - 1].epoch
    ensures Solid(Play(s, e), h + [Next(s, e.info)])
  {
    var next := Next(s, e.info);
    var ivs := s.intervals[next.epoch];
    HistoryGrows(s, h, e.info);
    if h == [] {
      FirstEpochUnknown(s, h, f, e.info);
    }
    AllPlaced(s, h, f, e.info);
    OnlyNextStored(s, h, f, next, |ivs| - 1);
    ContiguousStep(s, e);
    assert Extended(ivs, next.tick) == ivs;
    UnchangedIsSolid(s, Play(s, e), h, next);
  }

  lemma PlayKeepsSolid(s: State, h: History, f: Fate, e: Attempt)
    requires Inv(s, h, f) && Trailing(h, f) && Solid(s, h)
    requires WellFormed(s, e.info) && NotBehind(s, e.info) && Due(s, e.info)
    ensures Solid(Play(s, e), h + (if Marks(s, e) then [Next(s, e.info)] else []))
  {
    HistoryGrows(s, h, e.info);
    NextFollows(s, e.info);
    WritesAcrossGap(s, e.info);
    assert h + [] == h;
    if e.writes == 0 {
      assert Writes(s, e.info)[..0] == [];
    } else if Next(s, e.info).tick == LastProcessed(s, e.info).tick + 1 {
      ContiguousIsSolid(s, h, f, e);
    } else {
      GapStep(s, e);
      AppendedIsSolid(s, Play(s, e), h, Next(s, e.info));
    }
  }

  /** Over every run, intervals of more than one tick hold processed ticks only. */
  lemma {:induction false} RunKeepsSolid(run: Run)
    requires RunOk(run)
    ensures Solid(Final(run), HistoryOf(run))
  {
    if run != [] {
      var before, e := run[..|run| - 1], run[|run| - 1];
      RunKeepsSolid(before);
      RunKeepsInv(before);
      RunKeepsTrailing(before);
      if Due(Final(before), e.info) {
        PlayKeepsSolid(Final(before), HistoryOf(before), FateOf(before), e);
      } else {
        assert HistoryOf(before) + [] == HistoryOf(before);
      }
    }
  }

  // ---------- what keeps intervals ordered ----------

  /** An interval beyond the last processed tick has one tick. */
  lemma BeyondIsSingle(s: State, h: History, e: uint32, i: nat)
    requires ListsOk(s) && HistoryOk(h) && Solid(s, h) && e in s.intervals && i < |s.intervals[e]|
    requires s.intervals[e][i].first > LastOf(h)
    ensures s.intervals[e][i].first == s.intervals[e][i].last
  {
    BeyondNotIn(h, s.intervals[e][i].first, e);
    assert SolidList(h, e, s.intervals[e]);
    assert !AllIn(h, e, s.intervals[e][i]);
  }

  lemma BeyondNotIn(h: History, t: uint32, e: uint32)
    requires HistoryOk(h) && t > LastOf(h)
    ensures ProcessedTick(t, e) !in h
  {}

  /** The newest interval of the epoch ends at the tick in an ordered state, so the others are placed where
      it can follow. */
  lemma OrderPlaces(s: State, s': State, next: ProcessedTick, e: uint32, iv: Interval)
    requires ListsOk(s') && EpochsApart(s') && next.epoch in s'.intervals && End(s'.intervals[next.epoch]) == next.tick
    requires e in s.intervals && iv in s.intervals[e] && iv.first == iv.last
    requires e != next.epoch ==> e in s'.intervals && s'.intervals[e] == s.intervals[e]
    requires e == next.epoch ==> exists i :: 0 <= i < |s'.intervals[e]| && s'.intervals[e][i].first == iv.first
    ensures PlacedFor(next, e, iv.last) && PlacedFor(next, e, iv.first)
  {
    var ivs := s'.intervals[next.epoch];
    if e < next.epoch {
      assert Below(s'.intervals[e], ivs);
    } else if e > next.epoch {
      assert Below(ivs, s'.intervals[e]);
    } else {
      var i :| 0 <= i < |ivs| && ivs[i].first == iv.first;
      assert ivs[i].first <= ivs[|ivs| - 1].first <= End(ivs);
    }
  }

  /** What a pass that touches the intervals does to the list of its epoch. */
  lemma ListAfterPass(s: State, e: Attempt)
    requires WellFormed(s, e.info) && Due(s, e.info) && RoomLeft(s)
    requires e.writes >= if Next(s, e.info).tick == LastProcessed(s, e.info).tick + 1 then 2 else 1
    ensures var s', next := Play(s, e), Next(s, e.info);
            && s'.intervals.Keys == s.intervals.Keys + {next.epoch}
            && (forall d :: d in s.intervals && d != next.epoch ==> s'.intervals[d] == s.intervals[d])
            && s'.intervals[next.epoch] != [] && End(s'.intervals[next.epoch]) == next.tick
            && (forall i :: 0 <= i < |IntervalsOf(s, next.epoch)| ==>
                  i < |s'.intervals[next.epoch]|
                  && s'.intervals[next.epoch][i].first == IntervalsOf(s, next.epoch)[i].first)
  {
    NextFollows(s, e.info);
    if Next(s, e.info).tick == LastProcessed(s, e.info).tick + 1 {
      ContiguousStep(s, e);
    } else {
      GapStep(s, e);
    }
  }

  /** Not to be behind is exactly what keeps the stored intervals ordered: a pass that touches them leaves
      them in ascending order, and those of different epochs apart, if and only if its report is not
      behind. */
  lemma OrderKeptIff(s: State, h: History, f: Fate, e: Attempt)
    requires Inv(s, h, f) && Solid(s, h) && WellFormed(s, e.info) && Due(s, e.info)
    requires e.writes >= if Next(s, e.info).tick == LastProcessed(s, e.info).tick + 1 then 2 else 1
    ensures ListsOk(Play(s, e)) && EpochsApart(Play(s, e)) <==> NotBehind(s, e.info)
  {
    if NotBehind(s, e.info) {
      PlayKeepsInv(s, h, f, e);
    }
    if ListsOk(Play(s, e)) && EpochsApart(Play(s, e)) {
      OrderedIsNotBehind(s, h, f, e);
    }
  }

  lemma OrderedIsNotBehind(s: State, h: History, f: Fate, e: Attempt)
    requires Inv(s, h, f) && Solid(s, h) && WellFormed(s, e.info) && Due(s, e.info)
    requires e.writes >= if Next(s, e.info).tick == LastProcessed(s, e.info).tick + 1 then 2 else 1
    requires ListsOk(Play(s, e)) && EpochsApart(Play(s, e))
    ensures NotBehind(s, e.info)
  {
    var s', next := Play(s, e), Next(s, e.info);
    HistoryGrows(s, h, e.info);
    ListAfterPass(s, e);
    forall d, i | d in s.intervals && 0 <= i < |s.intervals[d]|
      ensures FollowsInterval(LastProcessed(s, e.info), next, d, s.intervals[d][i])
    {
      if s.intervals[d][i].first > LastOf(h) {
        BeyondIsSingle(s, h, d, i);
        OrderPlaces(s, s', next, d, s.intervals[d][i]);
      }
    }
  }

  /** Over runs: whatever was interrupted before, the next pass keeps the order exactly if its report is
      not behind. */
  lemma OrderOverRuns(run: Run, e: Attempt)
    requires RunOk(run) && WellFormed(Final(run), e.info) && Due(Final(run), e.info)
    requires var s := Final(run);
             e.writes >= if Next(s, e.info).tick == LastProcessed(s, e.info).tick + 1 then 2 else 1
    ensures ListsOk(Play(Final(run), e)) && EpochsApart(Play(Final(run), e)) <==> NotBehind(Final(run), e.info)
  {
    RunKeepsInv(run);
    RunKeepsSolid(run);
    OrderKeptIff(Final(run), HistoryOf(run), FateOf(run), e);
  }
}
