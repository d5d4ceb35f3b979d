/** The votes kept per interval after any run, interrupted and restarted anywhere: which tick the entry of
    an interval is about, as far as the stored intervals tell, and exactly when it is the interval's own
    last tick. */
module InterruptedVotes {
  import opened Bytes
  import opened Wrappers
  import opened Progress
  import opened ProgressRuns
  import opened RunInvariant
  import Gate
  import opened Votes
  import opened QuorumRecords
  import opened Archive
  import opened ArchiveRuns
  import opened QuorumLookup

  /** The number of writes after which a pass has written its votes under the index of the newest
      interval. */
  const VOTES_KEPT: nat := 3

  predicate WritesVotes(a: Archive, x: Action)
  {
    x.Pass? && Recorded(a, x.report) && x.writes >= VOTES_KEPT
  }

  /** The votes last written under each index of each epoch. */
  ghost function LastWritten(k: Codec, run: seq<Action>): (m: map<(uint32, nat), Ballot>)
  {
    if run == [] then map[]
    else
      var a, x, m := FinalArchive(k, run[..|run| - 1]), run[|run| - 1], LastWritten(k, run[..|run| - 1]);
      if !WritesVotes(a, x) then m
      else
        var votes := x.report.outcome.value.votes;
        m[(votes[0].epoch as uint32, IntervalIndex(a.progress, votes[0].epoch)) := votes]
  }

  /** One entry of a map against the expected votes. */
  ghost predicate HoldsAt(k: Codec, entries: map<nat, Full>, m: map<(uint32, nat), Ballot>, e: uint32, i: nat)
  {
    && (i in entries <==> (e, i) in m)
    && (i in entries ==> entries[i] == FullOf(k, m[(e, i)]))
  }

  /** The entries hold exactly these votes, in full. */
  ghost predicate Holds(k: Codec, a: Archive, m: map<(uint32, nat), Ballot>)
  {
    forall e: uint32, i: nat :: HoldsAt(k, LastQuorumOf(a, e), m, e, i)
  }

  function VotesKept(k: Codec, a: Archive, votes: Ballot): (r: map<uint32, map<nat, Full>>)
  {
    var epoch: uint32 := votes[0].epoch;
    a.lastQuorum[epoch := LastQuorumOf(a, epoch)[IntervalIndex(a.progress, epoch) := FullOf(k, votes)]]
  }

  lemma ComputorsKept(a: Archive, epoch: uint32, identities: seq<string>)
    ensures StoreComputors(a, epoch, identities).lastQuorum == a.lastQuorum
    ensures StoreComputors(a, epoch, identities).progress == a.progress
  {}

  lemma SameVotesKept(k: Codec, a: Archive, a1: Archive, votes: Ballot)
    requires a1.lastQuorum == a.lastQuorum && a1.progress == a.progress
    ensures VotesKept(k, a1, votes) == VotesKept(k, a, votes)
  {}

  lemma QuorumKept(k: Codec, a: Archive, tick: uint32, votes: Ballot)
    ensures StoreQuorum(k, a, tick, votes).lastQuorum == VotesKept(k, a, votes)
  {}

  lemma TickDataKept(a: Archive, tick: uint32, data: Option<Message>)
    ensures StoreTickData(a, tick, data).lastQuorum == a.lastQuorum
  {}

  lemma RecordsCutKept(k: Codec, a: Archive, tick: uint32, v: Validated, n: nat)
    ensures n < VOTES_KEPT ==> RecordsCut(k, a, tick, v, n).lastQuorum == a.lastQuorum
    ensures n >= VOTES_KEPT ==> RecordsCut(k, a, tick, v, n).lastQuorum == VotesKept(k, a, v.votes)
    ensures StoreRecords(k, a, tick, v).lastQuorum == VotesKept(k, a, v.votes)
  {
    var a1 := StoreComputors(a, v.firstEpoch, v.computors);
    ComputorsKept(a, v.firstEpoch, v.computors);
    SameVotesKept(k, a, a1, v.votes);
    QuorumKept(k, a1, tick, v.votes);
    TickDataKept(StoreQuorum(k, a1, tick, v.votes), tick, v.data);
  }

  lemma FinishKept(a: Archive, tick: uint32, v: Validated)
    ensures FinishTick(a, tick, v).0.lastQuorum == a.lastQuorum
  {
    StoreEmptyKept(a, v.firstEpoch, tick);
  }

  lemma StoreEmptyKept(a: Archive, epoch: uint32, tick: uint32)
    ensures StoreEmpty(a, epoch, tick).lastQuorum == a.lastQuorum
  {
    assert InitEmpty(a, epoch).lastQuorum == a.lastQuorum;
  }

  lemma EmptyCutKept(a: Archive, epoch: uint32, n: nat)
    ensures EmptyCut(a, epoch, n).lastQuorum == a.lastQuorum
  {
    assert InitEmpty(a, epoch).lastQuorum == a.lastQuorum;
  }

  lemma CutKept(k: Codec, a: Archive, initialTick: uint32, tick: uint32, v: Validated, n: nat)
    ensures n < VOTES_KEPT ==> StoreCut(k, a, initialTick, tick, v, n).lastQuorum == a.lastQuorum
    ensures n >= VOTES_KEPT ==> StoreCut(k, a, initialTick, tick, v, n).lastQuorum == VotesKept(k, a, v.votes)
  {
    RecordsCutKept(k, a, tick, v, n);
    if n > 4 {
      var a1 := StoreRecords(k, a, tick, v);
      var prev := PrevChainDigest(a1, initialTick, tick);
      if prev.Some? {
        EmptyCutKept(StoreChain(k, a1, tick, v.votes[0], prev.value), v.firstEpoch, n - 5);
      }
    }
  }

  lemma TickKept(k: Codec, a: Archive, initialTick: uint32, tick: uint32, v: Validated)
    ensures StoreTick(k, a, initialTick, tick, v).0.lastQuorum == VotesKept(k, a, v.votes)
  {
    RecordsCutKept(k, a, tick, v, 4);
    var a1 := StoreRecords(k, a, tick, v);
    var prev := PrevChainDigest(a1, initialTick, tick);
    if prev.Some? {
      FinishKept(StoreChain(k, a1, tick, v.votes[0], prev.value), tick, v);
    }
  }

  lemma PassKept(k: Codec, a: Archive, r: Report, n: nat)
    requires Recorded(a, r)
    ensures Process(k, a, r, n).lastQuorum
            == if n >= VOTES_KEPT then VotesKept(k, a, r.outcome.value.votes) else a.lastQuorum
  {
    var tick, v := Next(a.progress, r.info).tick, r.outcome.value;
    if n < StoreSize(v) {
      CutKept(k, a, r.info.initialTick, tick, v, n);
    } else {
      TickKept(k, a, r.info.initialTick, tick, v);
    }
  }

  lemma EntriesAfter(k: Codec, a: Archive, a': Archive, votes: Ballot, e: uint32)
    requires a'.lastQuorum == VotesKept(k, a, votes)
    ensures e != votes[0].epoch ==> LastQuorumOf(a', e) == LastQuorumOf(a, e)
    ensures e == votes[0].epoch ==>
              LastQuorumOf(a', e) == LastQuorumOf(a, e)[IntervalIndex(a.progress, e) := FullOf(k, votes)]
  {}

  lemma UpdateHoldsAt(k: Codec, entries: map<nat, Full>, m: map<(uint32, nat), Ballot>, e: uint32, i: nat, at: nat,
                      votes: Ballot)
    requires HoldsAt(k, entries, m, e, i)
    ensures HoldsAt(k, entries[at := FullOf(k, votes)], m[(e, at) := votes], e, i)
  {}

  lemma OtherHoldsAt(k: Codec, entries: map<nat, Full>, m: map<(uint32, nat), Ballot>, e: uint32, i: nat, d: uint32,
                     at: nat, votes: Ballot)
    requires HoldsAt(k, entries, m, e, i) && d != e
    ensures HoldsAt(k, entries, m[(d, at) := votes], e, i)
  {}

  lemma HoldsAfterAt(k: Codec, a: Archive, a': Archive, m: map<(uint32, nat), Ballot>, votes: Ballot, e: uint32, i: nat)
    requires HoldsAt(k, LastQuorumOf(a, e), m, e, i) && a'.lastQuorum == VotesKept(k, a, votes)
    ensures HoldsAt(k, LastQuorumOf(a', e),
                    m[(votes[0].epoch as uint32, IntervalIndex(a.progress, votes[0].epoch)) := votes], e, i)
  {
    var epoch: uint32, at := votes[0].epoch, IntervalIndex(a.progress, votes[0].epoch);
    EntriesAfter(k, a, a', votes, e);
    if e == epoch {
      UpdateHoldsAt(k, LastQuorumOf(a, e), m, e, i, at, votes);
    } else {
      OtherHoldsAt(k, LastQuorumOf(a, e), m, e, i, epoch, at, votes);
    }
  }

  lemma HoldsAfter(k: Codec, a: Archive, a': Archive, m: map<(uint32, nat), Ballot>, votes: Ballot)
    requires Holds(k, a, m) && a'.lastQuorum == VotesKept(k, a, votes)
    ensures Holds(k, a', m[(votes[0].epoch as uint32, IntervalIndex(a.progress, votes[0].epoch)) := votes])
  {
    var epoch: uint32, at := votes[0].epoch, IntervalIndex(a.progress, votes[0].epoch);
    var m' := m[(epoch, at) := votes];
    forall e: uint32, i: nat ensures HoldsAt(k, LastQuorumOf(a', e), m', e, i) {
      HoldsAfterAt(k, a, a', m, votes, e, i);
    }
  }

  lemma SameHolds(k: Codec, a: Archive, a': Archive, m: map<(uint32, nat), Ballot>)
    requires Holds(k, a, m) && a'.lastQuorum == a.lastQuorum
    ensures Holds(k, a', m)
  {
    forall e: uint32 ensures LastQuorumOf(a', e) == LastQuorumOf(a, e) {}
  }

  /** After any run whatever, the entries hold what was last written under their indices. */
  lemma {:induction false} EntriesHoldLastWritten(k: Codec, run: seq<Action>)
    ensures Holds(k, FinalArchive(k, run), LastWritten(k, run))
  {
    if run != [] {
      var before, x := run[..|run| - 1], run[|run| - 1];
      EntriesHoldLastWritten(k, before);
      ActHolds(k, FinalArchive(k, before), x, LastWritten(k, before));
    }
  }

  lemma ActHolds(k: Codec, a: Archive, x: Action, m: map<(uint32, nat), Ballot>)
    requires Holds(k, a, m)
    ensures !WritesVotes(a, x) ==> Holds(k, Act(k, a, x), m)
    ensures WritesVotes(a, x) ==>
              var votes := x.report.outcome.value.votes;
              Holds(k, Act(k, a, x), m[(votes[0].epoch as uint32, IntervalIndex(a.progress, votes[0].epoch)) := votes])
  {
    if x.Pass? && Recorded(a, x.report) {
      PassKept(k, a, x.report, x.writes);
      if WritesVotes(a, x) {
        HoldsAfter(k, a, Act(k, a, x), m, x.report.outcome.value.votes);
      } else {
        SameHolds(k, a, Act(k, a, x), m);
      }
    } else {
      IdleAct(k, a, x);
      SameHolds(k, a, Act(k, a, x), m);
    }
  }

  // ---------- which tick an entry is about ----------

  /** The last pass that wrote votes in an epoch: the tick it was over, and how many intervals of the epoch
      it found stored. */
  datatype VotePass = VotePass(tick: uint32, found: nat)

  ghost function LastVotePass(k: Codec, run: seq<Action>, e: uint32): (p: Option<VotePass>)
  {
    if run == [] then None
    else
      var a, x := FinalArchive(k, run[..|run| - 1]), run[|run| - 1];
      if WritesVotes(a, x) && Next(a.progress, x.report.info).epoch == e then
        Some(VotePass(Next(a.progress, x.report.info).tick, |IntervalsOf(a.progress, e)|))
      else LastVotePass(k, run[..|run| - 1], e)
  }

  /** Votes name the tick they are written for. */
  predicate NamesTick(a: Archive, x: Action)
  {
    WritesVotes(a, x) ==> x.report.outcome.value.votes[0].tick == Next(a.progress, x.report.info).tick
  }

  ghost predicate VotesNameTheirTick(k: Codec, run: seq<Action>)
  {
    run == []
    || (VotesNameTheirTick(k, run[..|run| - 1]) && NamesTick(FinalArchive(k, run[..|run| - 1]), run[|run| - 1]))
  }

  /** Closed intervals: the pass that stored the next interval was the last one to write. */
  ghost predicate ClosedWritten(m: map<(uint32, nat), Ballot>, e: uint32, ivs: seq<Interval>)
  {
    forall j: nat :: j + 1 < |ivs| ==> ClosedAt(m, e, ivs, j)
  }

  ghost predicate ClosedAt(m: map<(uint32, nat), Ballot>, e: uint32, ivs: seq<Interval>, j: nat)
    requires j + 1 < |ivs|
  {
    (e, j) in m && m[(e, j)][0].tick == ivs[j + 1].first
  }

  /** The newest interval: what the last pass in the epoch wrote, unless that pass stored the interval. */
  ghost predicate NewestWritten(m: map<(uint32, nat), Ballot>, e: uint32, n: nat, p: Option<VotePass>)
  {
    && (forall i :: (e, i) in m ==> i < n || i == 0)
    && (n > 0 ==>
          && p.Some?
          && ((e, n - 1) in m <==> n == 1 || p.value.found == n)
          && ((e, n - 1) in m ==> m[(e, n - 1)][0].tick == p.value.tick))
  }

  ghost predicate EpochWritten(m: map<(uint32, nat), Ballot>, e: uint32, ivs: seq<Interval>, p: Option<VotePass>)
  {
    ClosedWritten(m, e, ivs) && NewestWritten(m, e, |ivs|, p)
  }

  /** A list of intervals after a pass that may have stopped anywhere. */
  predicate ListMoves(ivs: seq<Interval>, ivs': seq<Interval>, t: uint32)
  {
    ivs' == ivs || ivs' == ivs + [Interval(t, t)] || ivs' == Extended(ivs, t)
  }

  lemma WrittenAfter(m: map<(uint32, nat), Ballot>, e: uint32, ivs: seq<Interval>, p: Option<VotePass>,
                     ivs': seq<Interval>, votes: Ballot)
    requires EpochWritten(m, e, ivs, p) && ListMoves(ivs, ivs', votes[0].tick)
    ensures EpochWritten(m[(e, if |ivs| == 0 then 0 else |ivs| - 1) := votes], e, ivs',
                         Some(VotePass(votes[0].tick, |ivs|)))
  {
    var m' := m[(e, if |ivs| == 0 then 0 else |ivs| - 1) := votes];
    forall j: nat | j + 1 < |ivs'| ensures ClosedAt(m', e, ivs', j) {
      if j + 1 < |ivs| {
        assert ClosedAt(m, e, ivs, j);
      }
    }
  }

  lemma OtherWritten(m: map<(uint32, nat), Ballot>, e: uint32, ivs: seq<Interval>, p: Option<VotePass>, d: uint32,
                     i: nat, votes: Ballot)
    requires EpochWritten(m, e, ivs, p) && d != e
    ensures EpochWritten(m[(d, i) := votes], e, ivs, p)
  {
    var m' := m[(d, i) := votes];
    forall j: nat | j + 1 < |ivs| ensures ClosedAt(m', e, ivs, j) {
      assert ClosedAt(m, e, ivs, j);
    }
  }

  /** What a pass, stopped anywhere, does to the lists. */
  lemma ListsMove(s: State, e: Attempt, d: uint32)
    requires WellFormed(s, e.info) && Due(s, e.info) && RoomLeft(s)
    ensures var next, ivs, ivs' := Next(s, e.info), IntervalsOf(s, d), IntervalsOf(Play(s, e), d);
            if d == next.epoch then ListMoves(ivs, ivs', next.tick) else ivs' == ivs
  {
    NextFollows(s, e.info);
    if Next(s, e.info).tick == LastProcessed(s, e.info).tick + 1 {
      ContiguousStep(s, e);
    } else {
      GapStep(s, e);
    }
  }

  lemma PassMoves(k: Codec, a: Archive, l: Log, r: Report, n: nat, d: uint32)
    requires BasicOk(k, a, l) && ReportOk(a, r) && Recorded(a, r)
    ensures var next := Next(a.progress, r.info);
            var ivs, ivs' := IntervalsOf(a.progress, d), IntervalsOf(Process(k, a, r, n).progress, d);
            if d == next.epoch then ListMoves(ivs, ivs', next.tick) else ivs' == ivs
  {
    PassPlays(k, a, l, r, n);
    HistoryGrows(a.progress, TicksIn(l), r.info);
    ListsMove(a.progress, AttemptOf(Pass(r, n))[0], d);
  }

  /** One pass over a tick, in any epoch. */
  lemma StepWritten(s: State, next: ProcessedTick, m: map<(uint32, nat), Ballot>, e: uint32, p: Option<VotePass>,
                    votes: Ballot, ivs': seq<Interval>)
    requires votes[0].tick == next.tick && votes[0].epoch == next.epoch
    requires EpochWritten(m, e, IntervalsOf(s, e), p)
    requires if e == next.epoch then ListMoves(IntervalsOf(s, e), ivs', next.tick) else ivs' == IntervalsOf(s, e)
    ensures EpochWritten(m[(votes[0].epoch as uint32, IntervalIndex(s, votes[0].epoch)) := votes], e, ivs',
                         if next.epoch == e then Some(VotePass(next.tick, |IntervalsOf(s, e)|)) else p)
  {
    if next.epoch == e {
      WrittenAfter(m, e, IntervalsOf(s, e), p, ivs', votes);
    } else {
      OtherWritten(m, e, IntervalsOf(s, e), p, next.epoch, IntervalIndex(s, next.epoch), votes);
    }
  }

  lemma ShortPass(k: Codec, a: Archive, r: Report, n: nat)
    requires Usable(a) && Recorded(a, r) && n < VOTES_KEPT
    ensures Process(k, a, r, n).progress == a.progress
  {
    ProgressOfCut(k, a, r, n);
  }

  /** After any run, interrupted and restarted anywhere, the votes last written under the indices of an
      epoch are about these ticks. */
  lemma {:induction false} RunKeepsWritten(k: Codec, run: seq<Action>, e: uint32)
    requires ActionsOk(k, run) && VotesNameTheirTick(k, run)
    ensures EpochWritten(LastWritten(k, run), e, IntervalsOf(FinalArchive(k, run).progress, e),
                         LastVotePass(k, run, e))
  {
    if run != [] {
      var before, x := run[..|run| - 1], run[|run| - 1];
      RunKeepsWritten(k, before, e);
      RunKeepsArchive(k, before);
      var a := FinalArchive(k, before);
      if WritesVotes(a, x) {
        PassMoves(k, a, LogOf(k, before), x.report, x.writes, e);
        StepWritten(a.progress, Next(a.progress, x.report.info), LastWritten(k, before), e, LastVotePass(k, before, e),
                    x.report.outcome.value.votes, IntervalsOf(Act(k, a, x).progress, e));
      } else if x.Pass? && Recorded(a, x.report) {
        ShortPass(k, a, x.report, x.writes);
      } else {
        IdleAct(k, a, x);
      }
    }
  }

  // ---------- what a range end is served ----------

  /** The interval is the epoch's first one that ends at its tick. */
  predicate FirstToEnd(ivs: seq<Interval>, j: nat)
  {
    j < |ivs| && forall i :: 0 <= i < j ==> ivs[i].last != ivs[j].last
  }

  lemma EndsAtFirst(ivs: seq<Interval>, j: nat)
    requires FirstToEnd(ivs, j)
    ensures Gate.EndsAt(ivs, ivs[j].last, 0) == Some(j)
  {
    assert Gate.EndsAt(ivs, ivs[j].last, 0).Some?;
  }

  lemma EpochFound(s: State, h: History, f: Fate, e: uint32, j: nat)
    requires Inv(s, h, f) && e in s.intervals && j < |s.intervals[e]|
    ensures Gate.FirstEpoch(Gate.Flat(AllIntervals(s)), s.intervals[e][j].last) == Some(e)
  {
    var iv := s.intervals[e][j];
    EndsAreSeen(s, h, f, e, j);
    Gate.CoveredIsSeen(s, h, f, e, iv, iv.last);
    Gate.EpochLookupIsExact(s, h, f, iv.last, e);
  }

  lemma DispatchAtEnd(rebuild: Rebuild, a: Archive, e: uint32, ivs: seq<Interval>, j: nat)
    requires j < |ivs| && a.progress.last.Some? && ivs[j].last <= a.progress.last.value.tick
    requires Gate.FirstEpoch(Gate.Flat(AllIntervals(a.progress)), ivs[j].last) == Some(e)
    requires Gate.EntryOf(e, AllIntervals(a.progress)) == Some(ivs) && Gate.EndsAt(ivs, ivs[j].last, 0) == Some(j)
    ensures GetQuorumTickData(rebuild, a, ivs[j].last)
            == KeptVotes(if j in LastQuorumOf(a, e) then Some(LastQuorumOf(a, e)[j]) else None)
  {}

  /** After any run whose reports are not behind one another, a tick that ends an interval, and is not
      beyond the last processed one, is served what the last pass wrote under the index of the first
      interval that ends there. */
  lemma EndServedLastWritten(k: Codec, rebuild: Rebuild, run: seq<Action>, e: uint32, j: nat)
    requires ActionsOk(k, run) && RunOk(AttemptsOf(run))
    requires var s := FinalArchive(k, run).progress;
             && e in s.intervals && FirstToEnd(s.intervals[e], j)
             && s.last.Some? && s.intervals[e][j].last <= s.last.value.tick
    ensures var a, m := FinalArchive(k, run), LastWritten(k, run);
            GetQuorumTickData(rebuild, a, a.progress.intervals[e][j].last)
            == KeptVotes(if (e, j) in m then Some(FullOf(k, m[(e, j)])) else None)
  {
    var a := FinalArchive(k, run);
    ProgressOfRun(k, run);
    RunKeepsInv(AttemptsOf(run));
    var s, h, f := a.progress, HistoryOf(AttemptsOf(run)), FateOf(AttemptsOf(run));
    StoredListFound(s, h, f, e);
    EpochFound(s, h, f, e, j);
    EndsAtFirst(s.intervals[e], j);
    DispatchAtEnd(rebuild, a, e, s.intervals[e], j);
    EntriesHoldLastWritten(k, run);
    assert HoldsAt(k, LastQuorumOf(a, e), LastWritten(k, run), e, j);
  }

  /** What the entry of an interval is about. If another interval of the epoch follows, it is about the tick
      which that one starts with. Otherwise it is about the tick of the last pass that wrote votes in the
      epoch, and absent if that pass stored the interval and it is not the epoch's first. */
  ghost predicate EntryAbout(ivs: seq<Interval>, j: nat, p: Option<VotePass>, b: Option<Ballot>)
    requires j < |ivs|
  {
    if j + 1 < |ivs| then b.Some? && b.value[0].tick == ivs[j + 1].first
    else
      && p.Some? && (b.Some? <==> j == 0 || p.value.found == |ivs|)
      && (b.Some? ==> b.value[0].tick == p.value.tick)
  }

  lemma EntryOfInterval(m: map<(uint32, nat), Ballot>, e: uint32, ivs: seq<Interval>, p: Option<VotePass>, j: nat)
    requires EpochWritten(m, e, ivs, p) && j < |ivs|
    ensures EntryAbout(ivs, j, p, if (e, j) in m then Some(m[(e, j)]) else None) && p.Some?
  {
    if j + 1 < |ivs| {
      assert ClosedAt(m, e, ivs, j);
    }
  }

  /** After any run, interrupted and restarted anywhere, the votes that the end of an interval is answered
      with are about that tick. */
  lemma EndServedWith(k: Codec, rebuild: Rebuild, run: seq<Action>, e: uint32, j: nat) returns (b: Option<Ballot>)
    requires ActionsOk(k, run) && RunOk(AttemptsOf(run)) && VotesNameTheirTick(k, run)
    requires var s := FinalArchive(k, run).progress;
             && e in s.intervals && FirstToEnd(s.intervals[e], j)
             && s.last.Some? && s.intervals[e][j].last <= s.last.value.tick
    ensures var a := FinalArchive(k, run);
            var ivs := a.progress.intervals[e];
            && GetQuorumTickData(rebuild, a, ivs[j].last)
               == KeptVotes(if b.Some? then Some(FullOf(k, b.value)) else None)
            && EntryAbout(ivs, j, LastVotePass(k, run, e), b) && LastVotePass(k, run, e).Some?
  {
    EndServedLastWritten(k, rebuild, run, e, j);
    b := AboutOverRuns(k, run, e, j);
  }

  lemma AboutOverRuns(k: Codec, run: seq<Action>, e: uint32, j: nat) returns (b: Option<Ballot>)
    requires ActionsOk(k, run) && VotesNameTheirTick(k, run)
    requires var s := FinalArchive(k, run).progress; e in s.intervals && j < |s.intervals[e]|
    ensures var m := LastWritten(k, run); b == if (e, j) in m then Some(m[(e, j)]) else None
    ensures EntryAbout(FinalArchive(k, run).progress.intervals[e], j, LastVotePass(k, run, e), b)
    ensures LastVotePass(k, run, e).Some?
  {
    RunKeepsWritten(k, run, e);
    var m := LastWritten(k, run);
    b := if (e, j) in m then Some(m[(e, j)]) else None;
    EntryOfInterval(m, e, FinalArchive(k, run).progress.intervals[e], LastVotePass(k, run, e), j);
  }

  /** The answer is about the tick itself. */
  ghost predicate ServedItself(rebuild: Rebuild, a: Archive, t: uint32)
  {
    exists full: Full :: GetQuorumTickData(rebuild, a, t) == KeptVotes(Some(full)) && full.structure.tick == t
  }

  /** After any run, interrupted and restarted anywhere, the end of a processed range is served votes of its
      own exactly if the following interval of the epoch starts at that same tick, which an interrupted and
      retried pass leaves behind; or, for the newest interval, if the last pass that wrote votes in the
      epoch was over that tick, and the interval is the epoch's first or was already stored then. */
  lemma ServedItselfIff(k: Codec, rebuild: Rebuild, run: seq<Action>, e: uint32, j: nat)
    requires ActionsOk(k, run) && RunOk(AttemptsOf(run)) && VotesNameTheirTick(k, run)
    requires var s := FinalArchive(k, run).progress;
             && e in s.intervals && FirstToEnd(s.intervals[e], j)
             && s.last.Some? && s.intervals[e][j].last <= s.last.value.tick
    ensures var a, p := FinalArchive(k, run), LastVotePass(k, run, e);
            var ivs := a.progress.intervals[e];
            && p.Some?
            && (ServedItself(rebuild, a, ivs[j].last) <==>
                if j + 1 < |ivs| then ivs[j + 1].first == ivs[j].last
                else p.value.tick == ivs[j].last && (j == 0 || p.value.found == |ivs|))
  {
    var b := EndServedWith(k, rebuild, run, e, j);
    AboutItself(k, rebuild, FinalArchive(k, run), FinalArchive(k, run).progress.intervals[e][j].last, b);
  }

  lemma AboutItself(k: Codec, rebuild: Rebuild, a: Archive, t: uint32, b: Option<Ballot>)
    requires GetQuorumTickData(rebuild, a, t) == KeptVotes(if b.Some? then Some(FullOf(k, b.value)) else None)
    ensures ServedItself(rebuild, a, t) <==> b.Some? && b.value[0].tick == t
  {
    if b.Some? {
      assert FullOf(k, b.value).structure.tick == b.value[0].tick;
    }
  }
}
