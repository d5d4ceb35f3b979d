/** Runs that show what the exact conditions exclude: votes overwritten at a gap, or kept because the
    gap was retried, an empty tick counted twice, and an epoch listing that depends on a restart. */
module Examples {
  import opened Bytes
  import opened Wrappers
  import opened Keys
  import opened Progress
  import opened ProgressRuns
  import opened Votes
  import opened QuorumRecords
  import opened Archive
  import opened ArchiveRuns
  import opened QuorumLookup
  import Gate
  import EmptyTicks
  import EmptyRetries
  import opened InterruptedVotes
  import EpochListing

  const EPOCH: uint16 := 200

  const DATA: Message := [1]

  /** Any vote, made out for a tick. */
  function VoteAt(any: Vote, t: uint32): (v: Vote)
  {
    any.(epoch := EPOCH, tick := t)
  }

  /** A node in the given epoch that starts at a tick, which gets recorded with or without data. */
  function ReportAt(any: Vote, t: uint32, data: Option<Message>): (r: Report)
  {
    Report(TickInfo(t, 9, EPOCH), Some(Validated([VoteAt(any, t)], EPOCH, data, [])))
  }

  function EntryFor(any: Vote, t: uint32, data: Option<Message>): (e: Entry)
  {
    Entry(ProcessedTick(t, EPOCH), [VoteAt(any, t)], data, true)
  }

  lemma ReportIsOk(a: Archive, any: Vote, t: uint32, data: Option<Message>)
    requires WellFormed(a.progress, ReportAt(any, t, data).info) && 1 <= t <= 9
    requires a.progress.last.Some? ==> a.progress.last.value.tick < t
    ensures ReportOk(a, ReportAt(any, t, data)) && Recorded(a, ReportAt(any, t, data))
    ensures EntryOf(a, ReportAt(any, t, data)) == EntryFor(any, t, data)
  {}

  /** One more tick, recorded by a whole pass. */
  lemma RecordNext(k: Codec, any: Vote, run: seq<Action>, t: uint32, data: Option<Message>)
    requires ActionsOk(k, run) && Whole(run) && 1 <= t <= 9
    requires var s := FinalArchive(k, run).progress;
             WellFormed(s, ReportAt(any, t, data).info) && (s.last.Some? ==> s.last.value.tick < t)
    ensures var run', r := run + [Pass(ReportAt(any, t, data), ALL)], ReportAt(any, t, data);
            && ActionsOk(k, run') && Whole(run') && LogOf(k, run') == LogOf(k, run) + [EntryFor(any, t, data)]
            && FinalArchive(k, run').progress == Step(FinalArchive(k, run).progress, r.info)
            && (!IsEmpty(data) ==> FinalArchive(k, run').emptyCount == FinalArchive(k, run).emptyCount)
  {
    var r := ReportAt(any, t, data);
    RunKeepsArchive(k, run);
    ReportIsOk(FinalArchive(k, run), any, t, data);
    OnePass(k, FinalArchive(k, run), LogOf(k, run), r);
    RunWith(k, run, Pass(r, ALL), Act(k, FinalArchive(k, run), Pass(r, ALL)), EntryFor(any, t, data));
  }

  lemma RunWith(k: Codec, run: seq<Action>, x: Action, a': Archive, e: Entry)
    requires ActionsOk(k, run) && Whole(run) && x.Pass? && x.writes >= ALL
    requires ActionOk(FinalArchive(k, run), x) && Act(k, FinalArchive(k, run), x) == a'
    requires NewEntries(k, FinalArchive(k, run), x) == [e]
    ensures ActionsOk(k, run + [x]) && Whole(run + [x])
    ensures FinalArchive(k, run + [x]) == a' && LogOf(k, run + [x]) == LogOf(k, run) + [e]
  {
    EmptyTicks.RunSnoc(k, run, x);
  }

  lemma OnePass(k: Codec, a: Archive, l: Log, r: Report)
    requires BasicOk(k, a, l) && ReportOk(a, r) && Recorded(a, r)
    ensures var x := Pass(r, ALL);
            && ActionOk(a, x) && NewEntries(k, a, x) == [EntryOf(a, r)]
            && Act(k, a, x).progress == Step(a.progress, r.info)
            && (!IsEmpty(r.outcome.value.data) ==> Act(k, a, x).emptyCount == a.emptyCount)
  {
    WholePass(k, a, l, r, ALL);
  }

  // ---------- a gap inside an epoch ----------

  ghost predicate TwoIntervals(s: State)
  {
    EPOCH as int in s.intervals && s.intervals[EPOCH] == [Interval(1, 1), Interval(5, 5)]
  }

  lemma AfterFirst(s: State)
    requires s == Step(EMPTY, TickInfo(1, 9, EPOCH))
    ensures s.last == Some(ProcessedTick(1, EPOCH)) && s.lastPerEpoch == map[EPOCH as uint32 := 1]
    ensures WellFormed(s, TickInfo(5, 9, EPOCH)) && TwoIntervals(Step(s, TickInfo(5, 9, EPOCH)))
  {
    var i1, i2 := TickInfo(1, 9, EPOCH), TickInfo(5, 9, EPOCH);
    PlayIsStep(EMPTY, i1);
    ContiguousStep(EMPTY, Attempt(i1, ALL_WRITES));
    PlayIsStep(s, i2);
    GapStep(s, Attempt(i2, ALL_WRITES));
    assert IntervalsOf(s, EPOCH) == [Interval(1, 1)];
  }

  lemma PassRecomputesNothing(x: Action, e: uint32)
    requires x.Pass?
    ensures !EmptyTicks.Recomputed([] + [x], e)
  {}

  lemma StartRecomputes(run: seq<Action>, x: Action, e: uint32)
    requires x.Start? && e in x.done
    ensures EmptyTicks.Recomputed(run + [x], e)
  {
    assert (run + [x])[|run|] == x;
  }

  lemma OneTick(k: Codec, any: Vote, data: Option<Message>) returns (run: seq<Action>)
    ensures ActionsOk(k, run) && Whole(run) && LogOf(k, run) == [EntryFor(any, 1, data)]
    ensures FinalArchive(k, run).progress == Step(EMPTY, TickInfo(1, 9, EPOCH))
    ensures !IsEmpty(data) ==> FinalArchive(k, run).emptyCount == map[]
    ensures !EmptyTicks.Recomputed(run, EPOCH)
  {
    RecordNext(k, any, [], 1, data);
    run := [] + [Pass(ReportAt(any, 1, data), ALL)];
    PassRecomputesNothing(Pass(ReportAt(any, 1, data), ALL), EPOCH);
    assert [] + [EntryFor(any, 1, data)] == [EntryFor(any, 1, data)];
  }

  lemma Further(k: Codec, any: Vote, run: seq<Action>) returns (run': seq<Action>)
    requires ActionsOk(k, run) && Whole(run)
    requires var s := FinalArchive(k, run).progress;
             WellFormed(s, TickInfo(5, 9, EPOCH)) && s.last == Some(ProcessedTick(1, EPOCH))
    ensures ActionsOk(k, run') && Whole(run') && LogOf(k, run') == LogOf(k, run) + [EntryFor(any, 5, None)]
    ensures FinalArchive(k, run').progress == Step(FinalArchive(k, run).progress, TickInfo(5, 9, EPOCH))
  {
    RecordNext(k, any, run, 5, None);
    run' := run + [Pass(ReportAt(any, 5, None), ALL)];
  }

  lemma TwoTicks(k: Codec, any: Vote) returns (run: seq<Action>)
    ensures ActionsOk(k, run) && Whole(run) && LogOf(k, run) == [EntryFor(any, 1, None), EntryFor(any, 5, None)]
    ensures TwoIntervals(FinalArchive(k, run).progress)
  {
    var first := OneTick(k, any, None);
    AfterFirst(FinalArchive(k, first).progress);
    run := Further(k, any, first);
    assert [EntryFor(any, 1, None)] + [EntryFor(any, 5, None)] == [EntryFor(any, 1, None), EntryFor(any, 5, None)];
  }

  /** Two ticks of one epoch with a gap between them: the first one ends a processed range, and is
      answered with the votes of the second. */
  lemma GapOverwritesVotes(k: Codec, rebuild: Rebuild, any: Vote) returns (run: seq<Action>)
    ensures ActionsOk(k, run) && Whole(run)
    ensures LogOf(k, run) == [EntryFor(any, 1, None), EntryFor(any, 5, None)]
    ensures GetQuorumTickData(rebuild, FinalArchive(k, run), 1) == KeptVotes(Some(FullOf(k, [VoteAt(any, 5)])))
  {
    run := TwoTicks(k, any);
    WholeRunKeepsArchive(k, run);
    RunKeepsKept(k, run);
    VotesOfBoth(LogOf(k, run));
    ServedFromNext(k, rebuild, FinalArchive(k, run), LogOf(k, run), [VoteAt(any, 5)]);
  }

  lemma ServedFromNext(k: Codec, rebuild: Rebuild, a: Archive, l: Log, votes: Ballot)
    requires ArchiveOk(k, a, l) && KeptOk(k, a, l) && TwoIntervals(a.progress)
    requires 5 in VotesAt(l) && VotesAt(l)[5] == votes
    ensures GetQuorumTickData(rebuild, a, 1) == KeptVotes(Some(FullOf(k, votes)))
  {
    EndTickAnswer(k, rebuild, a, l, EPOCH, 0);
  }

  lemma VotesOfBoth(l: Log)
    requires |l| == 2 && l[0].tick.tick == 1 && l[1].tick.tick == 5
    ensures VotesAt(l) == map[1 := l[0].votes, 5 := l[1].votes]
  {
    assert l[..1] == [l[0]] && [l[0]][..0] == [];
    assert VotesAt([l[0]]) == map[1 := l[0].votes];
  }

  // ---------- a gap that is retried ----------

  function CutAt(any: Vote, t: uint32, n: nat): (x: Action)
  {
    Pass(ReportAt(any, t, Some(DATA)), 5 + n)
  }

  lemma RunOkSnoc(run: Run, e: Attempt)
    requires RunOk(run) && WellFormed(Final(run), e.info) && NotBehind(Final(run), e.info)
    ensures RunOk(run + [e]) && Final(run + [e]) == Play(Final(run), e)
  {
    assert (run + [e])[..|run|] == run;
  }

  lemma AttemptsOfSnoc(any: Vote, run: seq<Action>, t: uint32, n: nat)
    ensures AttemptsOf(run + [CutAt(any, t, n)]) == AttemptsOf(run) + [Attempt(TickInfo(t, 9, EPOCH), n)]
  {
    assert (run + [CutAt(any, t, n)])[..|run|] == run;
  }

  /** A pass that gets to its progress writes and may stop among them. */
  lemma PassNext(k: Codec, any: Vote, run: seq<Action>, t: uint32, n: nat)
    requires ActionsOk(k, run) && RunOk(AttemptsOf(run)) && 1 <= t <= 9
    requires var s, info := FinalArchive(k, run).progress, TickInfo(t, 9, EPOCH);
             WellFormed(s, info) && NotBehind(s, info) && (s.last.Some? ==> s.last.value.tick < t)
    ensures var run' := run + [CutAt(any, t, n)];
            && ActionsOk(k, run') && RunOk(AttemptsOf(run'))
            && FinalArchive(k, run').progress == Play(FinalArchive(k, run).progress, Attempt(TickInfo(t, 9, EPOCH), n))
  {
    var x := CutAt(any, t, n);
    ReportIsOk(FinalArchive(k, run), any, t, Some(DATA));
    EmptyTicks.RunSnoc(k, run, x);
    ProgressOfRun(k, run);
    ProgressOfRun(k, run + [x]);
    AttemptsOfSnoc(any, run, t, n);
    RunOkSnoc(AttemptsOf(run), Attempt(TickInfo(t, 9, EPOCH), n));
  }

  lemma WritesNext(k: Codec, any: Vote, run: seq<Action>, t: uint32, n: nat)
    requires Recorded(FinalArchive(k, run), ReportAt(any, t, Some(DATA)))
    ensures LastWritten(k, run + [CutAt(any, t, n)])
            == LastWritten(k, run)[
                 (EPOCH as uint32, IntervalIndex(FinalArchive(k, run).progress, EPOCH)) := [VoteAt(any, t)]]
  {
    assert (run + [CutAt(any, t, n)])[..|run|] == run;
  }

  /** The marker and the intervals of the one epoch. */
  predicate Stands(s: State, t: uint32, ivs: seq<Interval>)
  {
    s.last == Some(ProcessedTick(t, EPOCH)) && s.intervals == map[EPOCH as uint32 := ivs]
  }

  lemma AfterOne()
    ensures Stands(Play(EMPTY, Attempt(TickInfo(1, 9, EPOCH), ALL_WRITES)), 1, [Interval(1, 1)])
  {
    ContiguousStep(EMPTY, Attempt(TickInfo(1, 9, EPOCH), ALL_WRITES));
  }

  lemma AfterGap(s: State, ivs: seq<Interval>, n: nat)
    requires Stands(s, 1, ivs) && 1 <= n
    ensures Stands(Play(s, Attempt(TickInfo(5, 9, EPOCH), n)), if n >= 3 then 5 else 1, ivs + [Interval(5, 5)])
  {
    GapStep(s, Attempt(TickInfo(5, 9, EPOCH), n));
  }

  /** The pass across the gap stops after its first progress write and is retried: the retry writes under
      the index of the interval that the first attempt left, so that the tick is served its own votes,
      although the epoch's newest interval is another one. */
  lemma RetriedGapServesOwn(k: Codec, rebuild: Rebuild, any: Vote) returns (run: seq<Action>)
    ensures ActionsOk(k, run) && RunOk(AttemptsOf(run))
    ensures IntervalsOf(FinalArchive(k, run).progress, EPOCH) == [Interval(1, 1), Interval(5, 5), Interval(5, 5)]
    ensures GetQuorumTickData(rebuild, FinalArchive(k, run), 5) == KeptVotes(Some(FullOf(k, [VoteAt(any, 5)])))
  {
    run := RetriedGap(k, any);
    EndServedLastWritten(k, rebuild, run, EPOCH, 1);
  }

  /** A report of tick 5 is not behind the intervals of ticks 1 and 5. */
  lemma GapIsOk(s: State, ivs: seq<Interval>)
    requires Stands(s, 1, ivs) && forall i :: 0 <= i < |ivs| ==> ivs[i] in [Interval(1, 1), Interval(5, 5)]
    ensures WellFormed(s, TickInfo(5, 9, EPOCH)) && NotBehind(s, TickInfo(5, 9, EPOCH)) && Due(s, TickInfo(5, 9, EPOCH))
    ensures IntervalsOf(s, EPOCH) == ivs
  {}

  /** A run that may be interrupted, with the state it leads to. */
  ghost predicate Leads(k: Codec, run: seq<Action>, t: uint32, ivs: seq<Interval>)
  {
    ActionsOk(k, run) && RunOk(AttemptsOf(run)) && Stands(FinalArchive(k, run).progress, t, ivs)
  }

  lemma GapPass(k: Codec, any: Vote, run: seq<Action>, ivs: seq<Interval>, n: nat) returns (run': seq<Action>)
    requires Leads(k, run, 1, ivs) && |ivs| > 0 && n >= 1
    requires forall i :: 0 <= i < |ivs| ==> ivs[i] in [Interval(1, 1), Interval(5, 5)]
    ensures Leads(k, run', if n >= 3 then 5 else 1, ivs + [Interval(5, 5)])
    ensures var m := LastWritten(k, run');
            (EPOCH as uint32, |ivs| - 1) in m && m[(EPOCH as uint32, |ivs| - 1)] == [VoteAt(any, 5)]
  {
    run' := run + [CutAt(any, 5, n)];
    GapIsOk(FinalArchive(k, run).progress, ivs);
    PassNext(k, any, run, 5, n);
    AfterGap(FinalArchive(k, run).progress, ivs, n);
    WritesNext(k, any, run, 5, n);
  }

  lemma FirstPass(k: Codec, any: Vote) returns (run: seq<Action>)
    ensures Leads(k, run, 1, [Interval(1, 1)])
  {
    PassNext(k, any, [], 1, ALL_WRITES);
    AfterOne();
    run := [] + [CutAt(any, 1, ALL_WRITES)];
  }

  lemma RetriedGap(k: Codec, any: Vote) returns (run: seq<Action>)
    ensures Leads(k, run, 5, [Interval(1, 1), Interval(5, 5), Interval(5, 5)])
    ensures (EPOCH as uint32, 1) in LastWritten(k, run) && LastWritten(k, run)[(EPOCH as uint32, 1)] == [VoteAt(any, 5)]
  {
    var first := FirstPass(k, any);
    var stopped := GapPass(k, any, first, [Interval(1, 1)], 1);
    assert [Interval(1, 1)] + [Interval(5, 5)] == [Interval(1, 1), Interval(5, 5)];
    run := GapPass(k, any, stopped, [Interval(1, 1), Interval(5, 5)], ALL_WRITES);
    assert [Interval(1, 1), Interval(5, 5)] + [Interval(5, 5)] == [Interval(1, 1), Interval(5, 5), Interval(5, 5)];
  }

  // ---------- a report behind an interrupted one ----------

  /** A report of a node whose epoch started at tick one, for the tick after it. */
  function SecondTick(any: Vote): (r: Report)
  {
    Report(TickInfo(1, 9, EPOCH), Some(Validated([VoteAt(any, 2)], EPOCH, Some(DATA), [])))
  }

  lemma AnyPass(k: Codec, run: seq<Action>, r: Report, n: nat) returns (run': seq<Action>)
    requires ActionsOk(k, run) && ReportOk(FinalArchive(k, run), r) && Recorded(FinalArchive(k, run), r)
    requires r.outcome.value.data == Some(DATA)
    ensures ActionsOk(k, run')
    ensures var a, a' := FinalArchive(k, run), FinalArchive(k, run');
            && a'.progress == Play(a.progress, Attempt(r.info, n))
            && a'.tickData.Keys == a.tickData.Keys + {Next(a.progress, r.info).tick}
  {
    var x := Pass(r, 5 + n);
    RunKeepsArchive(k, run);
    ProcessWrites(k, FinalArchive(k, run), LogOf(k, run), r, 5 + n);
    EmptyTicks.RunSnoc(k, run, x);
    run' := run + [x];
  }

  lemma AfterEight(s: State)
    requires Stands(s, 1, [Interval(1, 1)])
    ensures Stands(Play(s, Attempt(TickInfo(8, 9, EPOCH), 1)), 1, [Interval(1, 1)] + [Interval(8, 8)])
  {
    GapStep(s, Attempt(TickInfo(8, 9, EPOCH), 1));
  }

  lemma AfterBehind(s: State, ivs: seq<Interval>)
    requires Stands(s, 1, ivs)
    ensures Stands(Play(s, Attempt(TickInfo(1, 9, EPOCH), ALL_WRITES)), 2, Extended(ivs, 2))
  {
    NextIsSecond(s);
    ContiguousStep(s, Attempt(TickInfo(1, 9, EPOCH), ALL_WRITES));
  }

  lemma NextIsSecond(s: State)
    requires s.last == Some(ProcessedTick(1, EPOCH))
    ensures var info := TickInfo(1, 9, EPOCH);
            WellFormed(s, info) && Due(s, info) && Next(s, info) == ProcessedTick(2, EPOCH)
  {}

  lemma OneEntry(s: State, ivs: seq<Interval>)
    requires s.intervals == map[EPOCH as uint32 := ivs]
    ensures Gate.EntryOf(EPOCH, AllIntervals(s)) == Some(ivs)
  {
    IncreasingUnique(ScannedEpochs(s), [EPOCH as nat]);
    EntryFound(EPOCH, AllIntervals(s), 0);
  }

  lemma NoDataAtNine(tickData: map<uint32, Message>)
    requires 9 !in tickData
    ensures !AllStored(tickData, AllOffsetTicks([Interval(1, 1), Interval(8, 2)]))
  {
    var ts := OffsetTicks(Interval(8, 2));
    assert |ts| > 1 && ts[1] == 9;
    EmptyTicks.MissingInOne(tickData, [Interval(1, 1), Interval(8, 2)], 1);
  }

  /** After that, the empty ticks of the epoch cannot be recomputed, and the program does not start again. */
  lemma BehindCannotStart(k: Codec, any: Vote) returns (run: seq<Action>)
    ensures ActionsOk(k, run) && Stands(FinalArchive(k, run).progress, 2, [Interval(1, 1), Interval(8, 2)])
    ensures Calculate(FinalArchive(k, run), EPOCH) == None
  {
    run := BehindRun(k, any);
    OneEntry(FinalArchive(k, run).progress, [Interval(1, 1), Interval(8, 2)]);
    NoDataAtNine(FinalArchive(k, run).tickData);
  }

  /** A run with the intervals it leads to and the ticks whose data it stores. */
  ghost predicate Stores(k: Codec, run: seq<Action>, t: uint32, ivs: seq<Interval>, ticks: set<uint32>)
  {
    && ActionsOk(k, run) && Stands(FinalArchive(k, run).progress, t, ivs)
    && FinalArchive(k, run).tickData.Keys == ticks
  }

  lemma StoreFirst(k: Codec, any: Vote) returns (run: seq<Action>)
    ensures Stores(k, run, 1, [Interval(1, 1)], {1})
  {
    ReportIsOk(NOTHING, any, 1, Some(DATA));
    run := AnyPass(k, [], ReportAt(any, 1, Some(DATA)), ALL_WRITES);
    AfterOne();
  }

  lemma StoreEighth(k: Codec, any: Vote, run: seq<Action>) returns (run': seq<Action>)
    requires Stores(k, run, 1, [Interval(1, 1)], {1})
    ensures Stores(k, run', 1, [Interval(1, 1)] + [Interval(8, 8)], {1, 8})
  {
    ReportIsOk(FinalArchive(k, run), any, 8, Some(DATA));
    AfterEight(FinalArchive(k, run).progress);
    run' := AnyPass(k, run, ReportAt(any, 8, Some(DATA)), 1);
  }

  lemma SecondIsOk(a: Archive, any: Vote)
    requires Stands(a.progress, 1, [Interval(1, 1), Interval(8, 8)])
    ensures ReportOk(a, SecondTick(any)) && Recorded(a, SecondTick(any))
    ensures Next(a.progress, SecondTick(any).info) == ProcessedTick(2, EPOCH)
  {}

  lemma TicksOfThree()
    ensures {1 as uint32, 8} + {2} == {1, 8, 2}
  {}

  lemma StoreSecond(k: Codec, any: Vote, run: seq<Action>) returns (run': seq<Action>)
    requires Stores(k, run, 1, [Interval(1, 1), Interval(8, 8)], {1, 8})
    ensures Stores(k, run', 2, Extended([Interval(1, 1), Interval(8, 8)], 2), {1, 8, 2})
  {
    AfterBehind(FinalArchive(k, run).progress, [Interval(1, 1), Interval(8, 8)]);
    SecondIsOk(FinalArchive(k, run), any);
    run' := AnyPass(k, run, SecondTick(any), ALL_WRITES);
    TicksOfThree();
  }

  /** A pass to tick 8 stops after its interval write, and the next report leads to tick 2. */
  lemma BehindRun(k: Codec, any: Vote) returns (run: seq<Action>)
    ensures Stores(k, run, 2, [Interval(1, 1), Interval(8, 2)], {1, 8, 2})
  {
    var first := StoreFirst(k, any);
    var stopped := StoreEighth(k, any, first);
    assert [Interval(1, 1)] + [Interval(8, 8)] == [Interval(1, 1), Interval(8, 8)];
    run := StoreSecond(k, any, stopped);
    assert Extended([Interval(1, 1), Interval(8, 8)], 2) == [Interval(1, 1), Interval(8, 2)];
  }

  // ---------- an empty tick that is retried ----------

  /** An empty tick that is stored, stopped before its progress writes and retried: it is recorded once,
      but counted and listed twice. */
  lemma EmptyTickCountedTwice(k: Codec, any: Vote) returns (run: seq<Action>)
    ensures ActionsOk(k, run) && LogOf(k, run) == [EntryFor(any, 1, None)]
    ensures var a := FinalArchive(k, run);
            EmptyListOf(a, EPOCH) == [1, 1] && EmptyCountOf(a, EPOCH) == 2 && !EmptyTicks.CacheExact(a, EPOCH)
  {
    var r := ReportAt(any, 1, None);
    assert ActionsOk(k, []) && Whole([]) && FinalArchive(k, []) == NOTHING && LogOf(k, []) == [];
    ReportIsOk(NOTHING, any, 1, None);
    run := EmptyRetries.CountedTwice(k, [], r);
    assert [] + [EntryFor(any, 1, None)] == [EntryFor(any, 1, None)] && [1] + [1] == [1, 1];
  }

  // ---------- an epoch without empty ticks ----------

  lemma WithoutEmpties(any: Vote)
    ensures EmptyTicks.EmptiesOf([EntryFor(any, 1, Some(DATA))], EPOCH) == []
    ensures EpochListing.StatusesOf([EntryFor(any, 1, Some(DATA))], EPOCH) == [EpochListing.TickStatus(1, false)]
  {
    var l := [EntryFor(any, 1, Some(DATA))];
    assert l[..0] == [];
  }

  /** An epoch with one tick, which has data: its listing is an error until the program restarts. */
  lemma NotListedBeforeRestart(k: Codec, any: Vote, page: EpochListing.int32, size: EpochListing.int32, desc: bool,
                               r: Result<EpochListing.Page<EpochListing.TickStatus>, EpochListing.ListError>)
    returns (run: seq<Action>)
    requires size > 0
    ensures ActionsOk(k, run) && Whole(run) && LogOf(k, run) == [EntryFor(any, 1, Some(DATA))]
    ensures EpochListing.EpochAnswer(FinalArchive(k, run), EPOCH, page, size, desc, r) ==>
              r == Err(EpochListing.NoEmptyTicks)
  {
    run := OneTick(k, any, Some(DATA));
    WithoutEmpties(any);
    if EpochListing.EpochAnswer(FinalArchive(k, run), EPOCH, page, size, desc, r) {
      EpochListing.EpochListingIsExact(k, run, EPOCH, page, size, desc, r);
    }
  }

  lemma MayRestart(k: Codec, run: seq<Action>)
    requires ActionsOk(k, run) && Whole(run)
    requires FinalArchive(k, run).progress == Step(EMPTY, TickInfo(1, 9, EPOCH))
             && FinalArchive(k, run).emptyCount == map[]
    ensures ActionOk(FinalArchive(k, run), Start(false, {EPOCH as uint32}))
  {
    var a := FinalArchive(k, run);
    AfterFirst(a.progress);
    WholeRunKeepsArchive(k, run);
    EmptyTicks.CalculateIsLog(k, a, LogOf(k, run), EPOCH);
    OneEpochRecalculates(a);
  }

  lemma OneEpochRecalculates(a: Archive)
    requires a.progress.lastPerEpoch == map[EPOCH as uint32 := 1] && a.emptyCount == map[]
    requires Calculate(a, EPOCH).Some?
    ensures ActionOk(a, Start(false, {EPOCH as uint32}))
  {
    assert RecordedEpochs(a) == {EPOCH as uint32};
  }

  lemma RestartedRun(k: Codec, any: Vote) returns (run: seq<Action>)
    ensures ActionsOk(k, run) && Whole(run) && LogOf(k, run) == [EntryFor(any, 1, Some(DATA))]
    ensures EmptyTicks.Recomputed(run, EPOCH)
  {
    var first := OneTick(k, any, Some(DATA));
    MayRestart(k, first);
    run := Restarted(k, first, Start(false, {EPOCH as uint32}));
    StartRecomputes(first, Start(false, {EPOCH as uint32}), EPOCH);
  }

  lemma Restarted(k: Codec, run: seq<Action>, x: Action) returns (run': seq<Action>)
    requires ActionsOk(k, run) && Whole(run) && x.Start? && ActionOk(FinalArchive(k, run), x)
    ensures ActionsOk(k, run') && Whole(run') && LogOf(k, run') == LogOf(k, run) && run' == run + [x]
  {
    EmptyTicks.IdleAction(k, run, x);
    run' := run + [x];
  }

  /** After a restart the same epoch is listed. */
  lemma ListedAfterRestart(k: Codec, any: Vote, page: EpochListing.int32, size: EpochListing.int32, desc: bool,
                           r: Result<EpochListing.Page<EpochListing.TickStatus>, EpochListing.ListError>)
    returns (run: seq<Action>)
    requires size > 0
    ensures ActionsOk(k, run) && Whole(run) && LogOf(k, run) == [EntryFor(any, 1, Some(DATA))]
    ensures EpochListing.EpochAnswer(FinalArchive(k, run), EPOCH, page, size, desc, r) ==>
              r == EpochListing.PageOf([EpochListing.TickStatus(1, false)], page, size)
  {
    run := RestartedRun(k, any);
    WithoutEmpties(any);
    if EpochListing.EpochAnswer(FinalArchive(k, run), EPOCH, page, size, desc, r) {
      EpochListing.EpochListingIsExact(k, run, EPOCH, page, size, desc, r);
      OneReversed(EpochListing.TickStatus(1, false));
    }
  }

  lemma OneReversed<T>(x: T)
    ensures Reverse([x]) == [x]
  {
    assert [x][1..] == [];
  }
}
