/** The effect of one pass of the processing loop, stopped after any of its writes. */
module ProgressRuns {
  import opened Bytes
  import opened Wrappers
  import opened Progress

  function SkipBetween(last: ProcessedTick, next: ProcessedTick): (r: Skip)
    requires last.tick < next.tick
  {
    Skip(Succ(last.tick), next.tick - 1)
  }

  /** The last processed tick leaves room for a successor. */
  predicate RoomLeft(s: State)
  {
    s.last.Some? ==> s.last.value.tick < MAX_UINT32
  }

  lemma NextFollows(s: State, info: TickInfo)
    requires WellFormed(s, info) && Due(s, info) && RoomLeft(s)
    ensures var last, next := LastProcessed(s, info), Next(s, info);
            && last.tick < next.tick < MAX_UINT32 && last.epoch <= next.epoch < 0x1_0000_0000
            && Distance(next.tick, last.tick) == next.tick - last.tick
            && Succ(last.tick) == last.tick + 1
            && (s.last.None? ==> next.epoch == last.epoch == info.epoch)
  {}

  lemma WritesAcrossGap(s: State, info: TickInfo)
    requires WellFormed(s, info) && Due(s, info) && RoomLeft(s)
    ensures var last, next := LastProcessed(s, info), Next(s, info);
            Writes(s, info) ==
            if next.tick == last.tick + 1 then [MarkLast(next), ExtendInterval(next)]
            else [AppendInterval(next.epoch, Interval(next.tick, next.tick)), AppendSkip(SkipBetween(last, next)),
                  MarkLast(next), ExtendInterval(next)]
  {
    NextFollows(s, info);
  }

  lemma ApplyThree(s: State, a: Write, b: Write, c: Write)
    ensures ApplyAll(s, [a, b, c]) == Apply(Apply(Apply(s, a), b), c)
  {
    assert [a, b, c] == [a] + ([b] + [c]);
    ApplyConcat(s, [a], [b] + [c]);
    ApplyConcat(Apply(s, a), [b], [c]);
  }

  lemma ApplyOne(s: State, a: Write)
    ensures ApplyAll(s, [a]) == Apply(s, a)
  {
    assert [a][1..] == [];
  }

  lemma ApplyTwo(s: State, a: Write, b: Write)
    ensures ApplyAll(s, [a, b]) == Apply(Apply(s, a), b)
  {
    assert [a, b] == [a] + [b];
    ApplyConcat(s, [a], [b]);
    ApplyOne(s, a);
    ApplyOne(Apply(s, a), b);
  }

  /** The intervals with one more of a single tick. */
  function Appended(s: State, next: ProcessedTick): (r: map<uint32, seq<Interval>>)
  {
    s.intervals[next.epoch := IntervalsOf(s, next.epoch) + [Interval(next.tick, next.tick)]]
  }

  /** A pass onto the tick right after the last one: the marker moves first, and then the newest interval
      of the epoch is extended or opened. */
  lemma ContiguousStep(s: State, e: Attempt)
    requires WellFormed(s, e.info) && Due(s, e.info) && RoomLeft(s)
    requires Next(s, e.info).tick == LastProcessed(s, e.info).tick + 1
    ensures |Writes(s, e.info)| == 2
    ensures e.writes == 0 ==> Play(s, e) == s
    ensures var next := Next(s, e.info);
            e.writes > 0 ==>
              Play(s, e) == State(
                Some(next),
                s.lastPerEpoch[next.epoch := next.tick],
                if e.writes >= 2 then s.intervals[next.epoch := Extended(IntervalsOf(s, next.epoch), next.tick)]
                else s.intervals,
                s.skipped)
  {
    NextFollows(s, e.info);
    WritesAcrossGap(s, e.info);
    var ws := Writes(s, e.info);
    assert ws[..2] == ws == [ws[0], ws[1]] && ws[..1] == [ws[0]] && ws[..0] == [];
    ApplyOne(s, ws[0]);
    ApplyTwo(s, ws[0], ws[1]);
  }

  /** A pass across a gap: the one-tick interval, the gap, the marker; its last write changes nothing. */
  lemma GapStep(s: State, e: Attempt)
    requires WellFormed(s, e.info) && Due(s, e.info) && RoomLeft(s)
    requires Next(s, e.info).tick > LastProcessed(s, e.info).tick + 1
    ensures |Writes(s, e.info)| == 4
    ensures var last, next := LastProcessed(s, e.info), Next(s, e.info);
            Play(s, e) ==
            if e.writes == 0 then s
            else State(
              if e.writes >= 3 then Some(next) else s.last,
              if e.writes >= 3 then s.lastPerEpoch[next.epoch := next.tick] else s.lastPerEpoch,
              Appended(s, next),
              if e.writes >= 2 then s.skipped + [SkipBetween(last, next)] else s.skipped)
  {
    NextFollows(s, e.info);
    WritesAcrossGap(s, e.info);
    var ws := Writes(s, e.info);
    assert ws[..0] == [] && ws[..1] == [ws[0]] && ws[..2] == [ws[0], ws[1]];
    ApplyOne(s, ws[0]);
    ApplyTwo(s, ws[0], ws[1]);
    MarkAcrossGap(s, e.info);
  }

  lemma MarkAcrossGap(s: State, info: TickInfo)
    requires WellFormed(s, info) && Due(s, info) && RoomLeft(s)
    requires Next(s, info).tick > LastProcessed(s, info).tick + 1
    ensures var last, next := LastProcessed(s, info), Next(s, info);
            && |Writes(s, info)| == 4
            && Cut(s, info, 4) == Cut(s, info, 3) == State(
                Some(next), s.lastPerEpoch[next.epoch := next.tick], Appended(s, next),
                s.skipped + [SkipBetween(last, next)])
  {
    NextFollows(s, info);
    WritesAcrossGap(s, info);
    var ws := Writes(s, info);
    ApplyThree(s, ws[0], ws[1], ws[2]);
    assert ws[..3] == [ws[0], ws[1], ws[2]];
    var s3 := ApplyAll(s, ws[..3]);
    assert ws[..4] == ws == ws[..3] + [ws[3]];
    ApplyConcat(s, ws[..3], [ws[3]]);
    ApplyOne(s3, ws[3]);
    var ivs := s3.intervals[Next(s, info).epoch];
    assert Extended(ivs, Next(s, info).tick) == ivs;
    assert Apply(s3, ws[3]) == s3;
  }

  lemma PlayIsStep(s: State, info: TickInfo)
    ensures Play(s, Attempt(info, ALL_WRITES)) == Step(s, info)
  {
    assert Writes(s, info)[..|Writes(s, info)|] == Writes(s, info);
  }
}
