/** Serving the votes of a tick: the dispatch between votes kept in full per interval and votes
    rebuilt from the compressed records of two ticks, and what it returns in every reachable state. */
module QuorumLookup {
  import opened Bytes
  import opened Wrappers
  import opened Progress
  import opened ProgressRuns
  import opened RunInvariant
  import opened CleanRuns
  import Gate
  import opened GateRuns
  import opened SolidRuns
  import opened Votes
  import opened QuorumRecords
  import opened Archive
  import opened ArchiveRuns

  datatype Answer =
    | NothingProcessed
    | TooNew(last: uint32)
    | UnknownEpoch
    | KeptVotes(entry: Option<Full>)        // the entry of the interval that ends at the tick
    | Skipped(next: uint32)
    | Partial(record: Stored)               // the compressed record of the last processed tick
    | MissingRecord                         // a record of the tick, the next tick or the computors is absent
    | Undecodable
    | RebuiltVotes(full: Full)

  /** How an answer is made from the compressed records of a tick and of the next one, and the epoch's
      computors. */
  type Rebuild = (Stored, Stored, seq<string>) -> Answer

  function FromRecords(rebuild: Rebuild, a: Archive, tick: uint32): (r: Answer)
  {
    var next := Succ(tick);
    if next !in a.quorum || tick !in a.quorum then MissingRecord
    else
      var current := a.quorum[tick];
      if current.structure.epoch !in a.computors then MissingRecord
      else rebuild(current, a.quorum[next], a.computors[current.structure.epoch])
  }

  function RebuiltAnswer(k: Codec, current: Stored, next: Stored, identities: seq<string>): (r: Answer)
  {
    if !KnownComputors(current, identities) then MissingRecord
    else match QuorumRecords.Rebuilt(k, current, next, identities)
      case None => Undecodable
      case Some(full) => RebuiltVotes(full)
  }

  function RebuildWith(k: Codec): (r: Rebuild)
  {
    (current: Stored, next: Stored, identities: seq<string>) => RebuiltAnswer(k, current, next, identities)
  }

  ghost function GetQuorumTickData(rebuild: Rebuild, a: Archive, tick: uint32): (r: Answer)
  {
    var s := a.progress;
    if s.last.None? then NothingProcessed
    else if tick > s.last.value.tick then TooNew(s.last.value.tick)
    else
      var all := AllIntervals(s);
      match Gate.FirstEpoch(Gate.Flat(all), tick)
      case None => UnknownEpoch
      case Some(epoch) =>
        match Gate.EntryOf(epoch, all)
        case None => UnknownEpoch
        case Some(ivs) =>
          match Gate.EndsAt(ivs, tick, 0)
          case Some(i) => KeptVotes(if i in LastQuorumOf(a, epoch) then Some(LastQuorumOf(a, epoch)[i]) else None)
          case None =>
            match Gate.FirstBeyond(Gate.Flat(all), tick)
            case Some(next) => Answer.Skipped(next)
            case None =>
              if tick == s.last.value.tick then
                (if tick in a.quorum then Partial(a.quorum[tick]) else MissingRecord)
              else FromRecords(rebuild, a, tick)
  }

  // ---------- the votes kept per interval ----------

  /** The votes recorded for each tick. */
  function VotesAt(l: Log): (m: map<uint32, Ballot>)
  {
    if l == [] then map[] else VotesAt(l[..|l| - 1])[l[|l| - 1].tick.tick := l[|l| - 1].votes]
  }

  /** What the entry of interval `i` holds: the first tick of the next interval if the interval is
      closed; otherwise the interval's last tick, or nothing yet if it is a later interval that has one
      tick only. */
  ghost predicate EntryIs(k: Codec, votes: map<uint32, Ballot>, ivs: seq<Interval>, kept: map<nat, Full>, i: nat)
    requires i < |ivs|
  {
    if i + 1 < |ivs| then
      ivs[i + 1].first in votes && i in kept && kept[i] == FullOf(k, votes[ivs[i + 1].first])
    else if i == 0 || ivs[i].first < ivs[i].last then
      ivs[i].last in votes && i in kept && kept[i] == FullOf(k, votes[ivs[i].last])
    else i !in kept
  }

  ghost predicate EntriesOk(k: Codec, votes: map<uint32, Ballot>, ivs: seq<Interval>, kept: map<nat, Full>)
  {
    && (forall i :: i in kept ==> i < |ivs|)
    && (forall i :: 0 <= i < |ivs| ==> EntryIs(k, votes, ivs, kept, i))
  }

  ghost predicate KeptOk(k: Codec, a: Archive, l: Log)
  {
    forall e: uint32 :: EntriesOk(k, VotesAt(l), IntervalsOf(a.progress, e), LastQuorumOf(a, e))
  }

  lemma VotesAtSnoc(l: Log, e: Entry)
    ensures VotesAt(l + [e]) == VotesAt(l)[e.tick.tick := e.votes]
  {
    assert (l + [e])[..|l|] == l;
  }

  /** Entries about older ticks are not affected by a newer tick. */
  lemma EntriesKeep(k: Codec, votes: map<uint32, Ballot>, ivs: seq<Interval>, kept: map<nat, Full>, t: uint32,
                    b: Ballot)
    requires EntriesOk(k, votes, ivs, kept)
    requires forall i :: 0 <= i < |ivs| ==> ivs[i].first < t && ivs[i].last < t
    ensures EntriesOk(k, votes[t := b], ivs, kept)
  {
    var votes' := votes[t := b];
    forall i | 0 <= i < |ivs| ensures EntryIs(k, votes', ivs, kept, i) {
      assert EntryIs(k, votes, ivs, kept, i);
    }
  }

  /** Writing the new tick under the newest index and then extending the newest interval. */
  lemma EntriesAfterExtension(k: Codec, votes: map<uint32, Ballot>, ivs: seq<Interval>, kept: map<nat, Full>,
                              t: uint32, b: Ballot)
    requires EntriesOk(k, votes, ivs, kept)
    requires forall i :: 0 <= i < |ivs| ==> ivs[i].first < t && ivs[i].last < t
    ensures EntriesOk(k, votes[t := b], Extended(ivs, t), kept[(if |ivs| == 0 then 0 else |ivs| - 1) := FullOf(k, b)])
  {
    var ivs' := Extended(ivs, t);
    var kept' := kept[(if |ivs| == 0 then 0 else |ivs| - 1) := FullOf(k, b)];
    var votes' := votes[t := b];
    forall i | 0 <= i < |ivs'| ensures EntryIs(k, votes', ivs', kept', i) {
      if i < |ivs| {
        assert EntryIs(k, votes, ivs, kept, i);
      }
    }
  }

  /** Writing the new tick under the newest index and then opening a new interval: the entry of the
      interval that closes is overwritten with the first tick of the next one. */
  lemma EntriesAfterGap(k: Codec, votes: map<uint32, Ballot>, ivs: seq<Interval>, kept: map<nat, Full>, t: uint32,
                        b: Ballot)
    requires EntriesOk(k, votes, ivs, kept)
    requires forall i :: 0 <= i < |ivs| ==> ivs[i].first < t && ivs[i].last < t
    ensures EntriesOk(k, votes[t := b], ivs + [Interval(t, t)],
                      kept[(if |ivs| == 0 then 0 else |ivs| - 1) := FullOf(k, b)])
  {
    var ivs' := ivs + [Interval(t, t)];
    var kept' := kept[(if |ivs| == 0 then 0 else |ivs| - 1) := FullOf(k, b)];
    var votes' := votes[t := b];
    forall i | 0 <= i < |ivs'| ensures EntryIs(k, votes', ivs', kept', i) {
      if i < |ivs| {
        assert EntryIs(k, votes, ivs, kept, i);
      }
    }
  }

  /** What an uninterrupted step does to the intervals of the epoch it works in. */
  lemma StepIntervals(s: State, info: TickInfo)
    requires WellFormed(s, info) && Due(s, info) && RoomLeft(s)
    ensures var s', next := Step(s, info), Next(s, info);
            var ivs := IntervalsOf(s, next.epoch);
            && (IntervalsOf(s', next.epoch) == Extended(ivs, next.tick)
                || IntervalsOf(s', next.epoch) == ivs + [Interval(next.tick, next.tick)])
            && (forall e: uint32 :: e != next.epoch ==> IntervalsOf(s', e) == IntervalsOf(s, e))
  {
    var c := Attempt(info, ALL_WRITES);
    NextFollows(s, info);
    PlayIsStep(s, info);
    if Next(s, info).tick == LastProcessed(s, info).tick + 1 {
      ContiguousStep(s, c);
    } else {
      GapStep(s, c);
    }
  }

  lemma IntervalsBelowNext(a: Archive, l: Log, t: uint32, e: uint32)
    requires ProgressOk(a, l) && forall i :: 0 <= i < |l| ==> l[i].tick.tick < t
    ensures forall i :: 0 <= i < |IntervalsOf(a.progress, e)| ==>
              IntervalsOf(a.progress, e)[i].first < t && IntervalsOf(a.progress, e)[i].last < t
  {
    var h := TicksIn(l);
    AllBelowNext(a.progress, h, NO_LOSS, t);
  }

  lemma KeptAfterStep(k: Codec, a: Archive, a': Archive, l: Log, n: Entry, e: uint32)
    requires KeptOk(k, a, l)
    requires forall d: uint32, i :: 0 <= i < |IntervalsOf(a.progress, d)| ==>
               IntervalsOf(a.progress, d)[i].first < n.tick.tick && IntervalsOf(a.progress, d)[i].last < n.tick.tick
    requires var ivs, ivs' := IntervalsOf(a.progress, n.tick.epoch), IntervalsOf(a'.progress, n.tick.epoch);
             ivs' == Extended(ivs, n.tick.tick) || ivs' == ivs + [Interval(n.tick.tick, n.tick.tick)]
    requires forall d: uint32 :: d != n.tick.epoch ==> IntervalsOf(a'.progress, d) == IntervalsOf(a.progress, d)
    requires a'.lastQuorum == a.lastQuorum[n.tick.epoch :=
               LastQuorumOf(a, n.tick.epoch)[IntervalIndex(a.progress, n.tick.epoch) := FullOf(k, n.votes)]]
    ensures EntriesOk(k, VotesAt(l + [n]), IntervalsOf(a'.progress, e), LastQuorumOf(a', e))
  {
    VotesAtSnoc(l, n);
    var votes, ivs, kept := VotesAt(l), IntervalsOf(a.progress, e), LastQuorumOf(a, e);
    assert EntriesOk(k, votes, ivs, kept);
    if e != n.tick.epoch {
      EntriesKeep(k, votes, ivs, kept, n.tick.tick, n.votes);
      assert LastQuorumOf(a', e) == kept;
    } else {
      assert LastQuorumOf(a', e) == kept[(if |ivs| == 0 then 0 else |ivs| - 1) := FullOf(k, n.votes)];
      EntriesAfterExtension(k, votes, ivs, kept, n.tick.tick, n.votes);
      EntriesAfterGap(k, votes, ivs, kept, n.tick.tick, n.votes);
    }
  }

  lemma AllIntervalsBelow(a: Archive, l: Log, t: uint32)
    requires ProgressOk(a, l) && forall i :: 0 <= i < |l| ==> l[i].tick.tick < t
    ensures forall e: uint32, i :: 0 <= i < |IntervalsOf(a.progress, e)| ==>
              IntervalsOf(a.progress, e)[i].first < t && IntervalsOf(a.progress, e)[i].last < t
  {
    forall e: uint32
      ensures forall i :: 0 <= i < |IntervalsOf(a.progress, e)| ==>
                IntervalsOf(a.progress, e)[i].first < t && IntervalsOf(a.progress, e)[i].last < t
    {
      IntervalsBelowNext(a, l, t, e);
    }
  }

  lemma StepKeepsKept(k: Codec, a: Archive, l: Log, r: Report, writes: nat)
    requires ArchiveOk(k, a, l) && KeptOk(k, a, l) && ReportOk(a, r) && Recorded(a, r) && writes >= ALL
    ensures KeptOk(k, Process(k, a, r, writes), l + [EntryOf(a, r)])
  {
    var a', n := Process(k, a, r, writes), EntryOf(a, r);
    WholePass(k, a, l, r, writes);
    NextEntry(a, l, r);
    HistoryGrows(a.progress, TicksIn(l), r.info);
    StepIntervals(a.progress, r.info);
    AllIntervalsBelow(a, l, n.tick.tick);
    forall e: uint32 ensures EntriesOk(k, VotesAt(l + [n]), IntervalsOf(a'.progress, e), LastQuorumOf(a', e)) {
      KeptAfterStep(k, a, a', l, n, e);
    }
  }

  lemma SameKept(k: Codec, a: Archive, b: Archive, l: Log)
    requires KeptOk(k, a, l) && b.progress == a.progress && b.lastQuorum == a.lastQuorum
    ensures KeptOk(k, b, l)
  {
    forall e: uint32 ensures EntriesOk(k, VotesAt(l), IntervalsOf(b.progress, e), LastQuorumOf(b, e)) {
      assert EntriesOk(k, VotesAt(l), IntervalsOf(a.progress, e), LastQuorumOf(a, e));
    }
  }

  lemma ActKeepsKept(k: Codec, a: Archive, l: Log, x: Action)
    requires ArchiveOk(k, a, l) && KeptOk(k, a, l) && ActionOk(a, x) && (x.Pass? ==> x.writes >= ALL)
    ensures KeptOk(k, Act(k, a, x), l + NewEntries(k, a, x))
  {
    if x.Pass? && Recorded(a, x.report) {
      WholePass(k, a, l, x.report, x.writes);
      StepKeepsKept(k, a, l, x.report, x.writes);
    } else {
      IdleKeepsKept(k, a, l, x);
    }
  }

  lemma IdleKeepsKept(k: Codec, a: Archive, l: Log, x: Action)
    requires KeptOk(k, a, l) && !(x.Pass? && Recorded(a, x.report))
    ensures KeptOk(k, Act(k, a, x), l + NewEntries(k, a, x))
  {
    assert l + [] == l;
    IdleAct(k, a, x);
    SameKept(k, a, Act(k, a, x), l);
  }

  /** Every run of whole passes keeps the per-interval entries as described. */
  lemma {:induction false} RunKeepsKept(k: Codec, run: seq<Action>)
    requires ActionsOk(k, run) && Whole(run)
    ensures KeptOk(k, FinalArchive(k, run), LogOf(k, run))
  {
    if run != [] {
      var before := run[..|run| - 1];
      WholePrefix(run);
      RunKeepsKept(k, before);
      WholeRunKeepsArchive(k, before);
      ActKeepsKept(k, FinalArchive(k, before), LogOf(k, before), run[|run| - 1]);
    }
  }

  // ---------- the answers ----------

  lemma {:induction false} EntryFound(epoch: uint32, all: seq<EpochIntervals>, i: nat)
    requires i < |all| && all[i].epoch == epoch
    requires forall j :: 0 <= j < i ==> all[j].epoch != epoch
    ensures Gate.EntryOf(epoch, all) == Some(all[i].intervals)
  {
    if i > 0 {
      EntryFound(epoch, all[1..], i - 1);
    }
  }

  /** The lookup of an epoch's intervals finds the stored list. */
  lemma StoredListFound(s: State, h: History, f: Fate, epoch: uint32)
    requires Inv(s, h, f) && epoch in s.intervals
    ensures Gate.EntryOf(epoch, AllIntervals(s)) == Some(s.intervals[epoch])
  {
    Gate.KnownEpoch(s, h, f, epoch);
    var es := ScannedEpochs(s);
    var i :| 0 <= i < |es| && es[i] == epoch;
    EntryFound(epoch, AllIntervals(s), i);
  }

  /** What every run keeps of the progress tables. */
  ghost predicate Reached(a: Archive, l: Log, f: Fate)
  {
    Inv(a.progress, TicksIn(l), f) && Solid(a.progress, TicksIn(l))
  }

  lemma RunReaches(k: Codec, run: seq<Action>)
    requires ActionsOk(k, run) && RunOk(AttemptsOf(run))
    ensures Reached(FinalArchive(k, run), LogOf(k, run), FateOf(AttemptsOf(run)))
    ensures RecordsOk(k, FinalArchive(k, run), LogOf(k, run))
  {
    RunKeepsArchive(k, run);
    ProgressOfRun(k, run);
    RunKeepsInv(AttemptsOf(run));
    RunKeepsSolid(AttemptsOf(run));
  }

  lemma ExactIsReached(a: Archive, l: Log)
    requires ProgressOk(a, l)
    ensures Reached(a, l, NO_LOSS)
  {
    NoStraySolid(a.progress, TicksIn(l));
  }

  lemma NoStraySolid(s: State, h: History)
    requires Inv(s, h, NO_LOSS)
    ensures Solid(s, h)
  {
    forall e, i | e in s.intervals && 0 <= i < |s.intervals[e]| ensures AllIn(h, e, s.intervals[e][i]) {
      var iv := s.intervals[e][i];
      forall t: uint32 | iv.first <= t <= iv.last ensures ProcessedTick(t, e) in h {
        Gate.CoveredIsProcessed(s, h, NO_LOSS, e, iv, t);
      }
    }
  }

  /** The dispatch once epoch and intervals are found and the tick was not skipped. */
  lemma DispatchOnceFound(rebuild: Rebuild, a: Archive, tick: uint32, epoch: uint32, ivs: seq<Interval>)
    requires a.progress.last.Some? && tick <= a.progress.last.value.tick
    requires Gate.FirstEpoch(Gate.Flat(AllIntervals(a.progress)), tick) == Some(epoch)
    requires Gate.EntryOf(epoch, AllIntervals(a.progress)) == Some(ivs)
    requires Gate.FirstBeyond(Gate.Flat(AllIntervals(a.progress)), tick) == None
    requires tick == a.progress.last.value.tick ==> Gate.EndsAt(ivs, tick, 0).Some?
    ensures GetQuorumTickData(rebuild, a, tick) ==
            match Gate.EndsAt(ivs, tick, 0)
            case Some(i) => KeptVotes(if i in LastQuorumOf(a, epoch) then Some(LastQuorumOf(a, epoch)[i]) else None)
            case None => FromRecords(rebuild, a, tick)
  {}

  /** For a tick that intervals cover, processed or a stray, the dispatch reaches the interval test, and
      neither the skip branch nor the branch for the last processed tick is ever taken. */
  lemma CoveredTickDispatch(rebuild: Rebuild, a: Archive, l: Log, f: Fate, t: ProcessedTick)
    requires Reached(a, l, f) && l != [] && t.tick <= l[|l| - 1].tick.tick
    requires Seen(TicksIn(l), f, t.epoch, t.tick) && !Uncovered(f, t.tick)
    ensures t.epoch in a.progress.intervals
    ensures GetQuorumTickData(rebuild, a, t.tick) ==
            match Gate.EndsAt(a.progress.intervals[t.epoch], t.tick, 0)
            case Some(i) => KeptVotes(if i in LastQuorumOf(a, t.epoch) then Some(LastQuorumOf(a, t.epoch)[i]) else None)
            case None => FromRecords(rebuild, a, t.tick)
  {
    var s, h := a.progress, TicksIn(l);
    TickIsKnown(s, h, f, t);
    MarkerIsLast(a, l, f);
    Gate.EpochLookupIsExact(s, h, f, t.tick, t.epoch);
    StoredListFound(s, h, f, t.epoch);
    CoveredNotSkipped(s, h, f, t);
    if t.tick == LastOf(h) {
      LastTickEndsInterval(s, h, f, t);
    }
    DispatchOnceFound(rebuild, a, t.tick, t.epoch, s.intervals[t.epoch]);
  }

  lemma TickIsKnown(s: State, h: History, f: Fate, t: ProcessedTick)
    requires Inv(s, h, f) && Seen(h, f, t.epoch, t.tick) && !Uncovered(f, t.tick)
    ensures t.epoch in s.intervals && InIntervals(s.intervals[t.epoch], t.tick)
  {
    assert Covered(s, t.epoch, t.tick);
  }

  lemma CoveredNotSkipped(s: State, h: History, f: Fate, t: ProcessedTick)
    requires Inv(s, h, f) && Seen(h, f, t.epoch, t.tick) && !Uncovered(f, t.tick)
    ensures Gate.FirstBeyond(Gate.Flat(AllIntervals(s)), t.tick) == None
  {
    ScanMeaning(s, h, f, t.tick);
    assert Covered(s, t.epoch, t.tick);
  }

  lemma LastTickEndsInterval(s: State, h: History, f: Fate, t: ProcessedTick)
    requires Inv(s, h, f) && t.epoch in s.intervals && InIntervals(s.intervals[t.epoch], t.tick) && t.tick == LastOf(h)
    ensures Gate.EndsAt(s.intervals[t.epoch], t.tick, 0).Some?
  {
    var ivs := s.intervals[t.epoch];
    var i :| 0 <= i < |ivs| && ivs[i].first <= t.tick <= ivs[i].last;
    if ivs[i].last > t.tick {
      BeyondStartsBeyond(s, h, f, t.epoch, ivs[i]);
    }
  }

  /** Ticks that intervals do not cover are never answered: they are beyond the last one, or no epoch is
      found for them. So the skip branch is dead for every tick. */
  lemma UncoveredTickDispatch(rebuild: Rebuild, a: Archive, l: Log, f: Fate, t: uint32)
    requires Inv(a.progress, TicksIn(l), f) && (Uncovered(f, t) || !Available(TicksIn(l), f, t))
    ensures GetQuorumTickData(rebuild, a, t) ==
            if l == [] then NothingProcessed
            else if t > l[|l| - 1].tick.tick then TooNew(l[|l| - 1].tick.tick)
            else UnknownEpoch
  {
    NoEpochFound(a.progress, TicksIn(l), f, t);
    MarkerIsLast(a, l, f);
    DispatchUnknown(rebuild, a, t);
  }

  lemma MarkerIsLast(a: Archive, l: Log, f: Fate)
    requires Inv(a.progress, TicksIn(l), f)
    ensures a.progress.last == if l == [] then None else Some(l[|l| - 1].tick)
    ensures LastOf(TicksIn(l)) == if l == [] then 0 else l[|l| - 1].tick.tick
  {
    MarkerFacts(a.progress, TicksIn(l), f);
    LastOfTicks(a.progress, l);
  }

  lemma LastOfTicks(s: State, l: Log)
    requires s.last == if TicksIn(l) == [] then None else Some(TicksIn(l)[|l| - 1])
    ensures s.last == if l == [] then None else Some(l[|l| - 1].tick)
    ensures LastOf(TicksIn(l)) == if l == [] then 0 else l[|l| - 1].tick.tick
  {}

  lemma DispatchUnknown(rebuild: Rebuild, a: Archive, tick: uint32)
    requires Gate.FirstEpoch(Gate.Flat(AllIntervals(a.progress)), tick) == None
    ensures GetQuorumTickData(rebuild, a, tick) ==
            match a.progress.last
            case None => NothingProcessed
            case Some(last) => if tick > last.tick then TooNew(last.tick) else UnknownEpoch
  {}

  lemma NoEpochFound(s: State, h: History, f: Fate, t: uint32)
    requires Inv(s, h, f) && (Uncovered(f, t) || !Available(h, f, t))
    ensures Gate.FirstEpoch(Gate.Flat(AllIntervals(s)), t) == None
  {
    if Gate.FirstEpoch(Gate.Flat(AllIntervals(s)), t).Some? {
      Gate.EpochFoundIsSeen(s, h, f, t);
      SeenIsAvailable(h, f, Gate.FirstEpoch(Gate.Flat(AllIntervals(s)), t).value, t);
    }
  }

  /** A stray ends an interval of its own, so it is always answered from the entry of an interval. */
  lemma StrayEndsInterval(s: State, h: History, f: Fate, x: ProcessedTick)
    requires Inv(s, h, f) && Solid(s, h) && x in f.stray
    ensures x.epoch in s.intervals && Gate.EndsAt(s.intervals[x.epoch], x.tick, 0).Some?
  {
    assert Seen(h, f, x.epoch, x.tick) && !Uncovered(f, x.tick);
    TickIsKnown(s, h, f, x);
    var ivs := s.intervals[x.epoch];
    var i :| 0 <= i < |ivs| && ivs[i].first <= x.tick <= ivs[i].last;
    StrayNotIn(h, f, x);
    assert SolidList(h, x.epoch, ivs);
    assert !AllIn(h, x.epoch, ivs[i]);
  }

  lemma StrayNotIn(h: History, f: Fate, x: ProcessedTick)
    requires StrayOk(h, f) && x in f.stray
    ensures x !in h
  {
    assert !Processed(h, x.tick);
  }

  lemma {:induction false} VotesAtEntry(l: Log, i: nat)
    requires i < |l| && forall m, n :: 0 <= m < n < |l| ==> l[m].tick.tick < l[n].tick.tick
    ensures l[i].tick.tick in VotesAt(l) && VotesAt(l)[l[i].tick.tick] == l[i].votes
  {
    var init := l[..|l| - 1];
    if i < |init| {
      VotesAtEntry(init, i);
      assert init[i] == l[i];
    }
  }

  /** A processed tick that does not end an interval: the tick after it was processed in the same
      epoch, and the answer is rebuilt from the compressed votes of the two. */
  lemma InnerTickAnswer(k: Codec, rebuild: Rebuild, a: Archive, l: Log, f: Fate, i: nat) returns (n: nat)
    requires RecordsOk(k, a, l) && Reached(a, l, f) && i < |l| && !Uncovered(f, l[i].tick.tick)
    requires forall iv :: iv in IntervalsOf(a.progress, l[i].tick.epoch) ==> iv.last != l[i].tick.tick
    ensures n < |l| && l[n].tick == ProcessedTick(l[i].tick.tick + 1, l[i].tick.epoch)
    ensures l[i].tick.epoch in a.computors
    ensures GetQuorumTickData(rebuild, a, l[i].tick.tick)
            == rebuild(StoredOf(k, l[i].votes), StoredOf(k, l[n].votes), a.computors[l[i].tick.epoch])
  {
    n := InnerTickDispatch(rebuild, a, l, f, i);
    AnswerFromEntries(k, rebuild, a, l, i, n);
  }

  lemma AnswerFromEntries(k: Codec, rebuild: Rebuild, a: Archive, l: Log, i: nat, n: nat)
    requires RecordsOk(k, a, l) && i < |l| && n < |l|
    requires l[i].tick.tick < MAX_UINT32 && l[n].tick.tick == l[i].tick.tick + 1
    ensures l[i].tick.epoch in a.computors
    ensures FromRecords(rebuild, a, l[i].tick.tick)
            == rebuild(StoredOf(k, l[i].votes), StoredOf(k, l[n].votes), a.computors[l[i].tick.epoch])
  {
    EntryFacts(k, a, l, i);
    EntryFacts(k, a, l, n);
    AnswerFromRecords(rebuild, a, l[i].tick.tick, StoredOf(k, l[i].votes), StoredOf(k, l[n].votes));
  }

  lemma InnerTickDispatch(rebuild: Rebuild, a: Archive, l: Log, f: Fate, i: nat) returns (n: nat)
    requires Reached(a, l, f) && i < |l| && !Uncovered(f, l[i].tick.tick)
    requires forall iv :: iv in IntervalsOf(a.progress, l[i].tick.epoch) ==> iv.last != l[i].tick.tick
    ensures n < |l| && l[i].tick.tick < MAX_UINT32 && l[n].tick == ProcessedTick(l[i].tick.tick + 1, l[i].tick.epoch)
    ensures GetQuorumTickData(rebuild, a, l[i].tick.tick) == FromRecords(rebuild, a, l[i].tick.tick)
  {
    var t := l[i].tick;
    LoggedIsSeen(a, l, f, i);
    CoveredTickDispatch(rebuild, a, l, f, t);
    n := FollowingTick(a.progress, TicksIn(l), f, t);
    NotAnEnd(IntervalsOf(a.progress, t.epoch), t.tick);
  }

  lemma LoggedIsSeen(a: Archive, l: Log, f: Fate, i: nat)
    requires Inv(a.progress, TicksIn(l), f) && i < |l|
    ensures Seen(TicksIn(l), f, l[i].tick.epoch, l[i].tick.tick) && l[i].tick.tick <= l[|l| - 1].tick.tick
  {
    var h := TicksIn(l);
    assert h[i] == l[i].tick && h[|h| - 1] == l[|l| - 1].tick;
    assert h[i] in h;
  }

  lemma EntryFacts(k: Codec, a: Archive, l: Log, i: nat)
    requires RecordsOk(k, a, l) && i < |l|
    ensures l[i].tick.tick in a.quorum && a.quorum[l[i].tick.tick] == StoredOf(k, l[i].votes)
    ensures StoredOf(k, l[i].votes).structure.epoch == l[i].tick.epoch && l[i].tick.epoch in a.computors
    ensures l[i].votes[0].epoch == l[i].tick.epoch
  {
    assert RecordOk(k, a, l[i]);
  }

  lemma NotAnEnd(ivs: seq<Interval>, t: uint32)
    requires forall iv :: iv in ivs ==> iv.last != t
    ensures Gate.EndsAt(ivs, t, 0) == None
  {}

  lemma AnswerFromRecords(rebuild: Rebuild, a: Archive, tick: uint32, current: Stored, next: Stored)
    requires tick < MAX_UINT32 && tick in a.quorum && a.quorum[tick] == current
    requires tick + 1 in a.quorum && a.quorum[tick + 1] == next
    requires current.structure.epoch in a.computors
    ensures FromRecords(rebuild, a, tick) == rebuild(current, next, a.computors[current.structure.epoch])
  {}

  lemma FollowingTick(s: State, h: History, f: Fate, t: ProcessedTick) returns (n: nat)
    requires Inv(s, h, f) && Solid(s, h) && t in h && Seen(h, f, t.epoch, t.tick) && !Uncovered(f, t.tick)
    requires forall iv :: iv in IntervalsOf(s, t.epoch) ==> iv.last != t.tick
    ensures t.tick < MAX_UINT32 && n < |h| && h[n] == ProcessedTick(t.tick + 1, t.epoch)
  {
    TickIsKnown(s, h, f, t);
    var ivs := s.intervals[t.epoch];
    var j :| 0 <= j < |ivs| && ivs[j].first <= t.tick <= ivs[j].last;
    assert ivs[j] in ivs;
    assert SolidList(h, t.epoch, ivs);
    assert AllIn(h, t.epoch, ivs[j]);
    n :| 0 <= n < |h| && h[n] == ProcessedTick(t.tick + 1, t.epoch);
  }

  /** End to end: for a tick inside an interval the answer is exactly the full form of the votes that
      were validated for it if and only if its epoch uses the new format and the salts of its votes
      match the digests that the next tick's votes report. */
  lemma InnerTickServedInFull(k: Codec, a: Archive, l: Log, f: Fate, i: nat, keys: seq<Digest>) returns (n: nat)
    requires RecordsOk(k, a, l) && Reached(a, l, f) && i < |l| && !Uncovered(f, l[i].tick.tick)
    requires forall iv :: iv in IntervalsOf(a.progress, l[i].tick.epoch) ==> iv.last != l[i].tick.tick
    requires l[i].tick.epoch in a.computors ==>
               IdentitiesMatch(k, a.computors[l[i].tick.epoch], keys, l[i].votes)
    ensures n < |l| && l[n].tick == ProcessedTick(l[i].tick.tick + 1, l[i].tick.epoch)
    ensures forall m :: m in QuorumRecords.Kept(l[i].votes) ==> m < |keys|
    ensures GetQuorumTickData(RebuildWith(k), a, l[i].tick.tick) == RebuiltVotes(FullOf(k, l[i].votes))
            <==> l[i].tick.epoch >= NEW_FORMAT_EPOCH && AllSaltsMatch(k, keys, l[i].votes, l[n].votes[0])
  {
    n := InnerTickAnswer(k, RebuildWith(k), a, l, f, i);
    EntryFacts(k, a, l, i);
    RebuiltInFull(k, a.computors[l[i].tick.epoch], keys, l[i].votes, l[n].votes);
  }

  lemma RebuiltInFull(k: Codec, identities: seq<string>, keys: seq<Digest>, votes: Ballot, next: Ballot)
    requires IdentitiesMatch(k, identities, keys, votes)
    ensures forall m :: m in QuorumRecords.Kept(votes) ==> m < |keys|
    ensures RebuildWith(k)(StoredOf(k, votes), StoredOf(k, next), identities) == RebuiltVotes(FullOf(k, votes))
            <==> votes[0].epoch >= NEW_FORMAT_EPOCH && AllSaltsMatch(k, keys, votes, next[0])
  {
    CompressionRoundTrip(k, identities, keys, votes, next);
    FoundFull(k, StoredOf(k, votes), StoredOf(k, next), identities, FullOf(k, votes));
  }

  lemma FoundFull(k: Codec, current: Stored, next: Stored, identities: seq<string>, full: Full)
    requires KnownComputors(current, identities)
    ensures RebuildWith(k)(current, next, identities) == RebuiltVotes(full)
            <==> QuorumRecords.Rebuilt(k, current, next, identities) == Some(full)
  {}

  /** A tick that ends interval `j` of its epoch is answered from the entry of that interval. The
      answer is the tick's own votes exactly if the interval is the epoch's newest and is its first or
      has at least two ticks; an interval closed by a gap is answered with the votes of the first tick
      after the gap, and a newest later interval of one tick with nothing. */
  lemma EndTickAnswer(k: Codec, rebuild: Rebuild, a: Archive, l: Log, e: uint32, j: nat)
    requires ArchiveOk(k, a, l) && KeptOk(k, a, l)
    requires e in a.progress.intervals && j < |a.progress.intervals[e]|
    ensures var ivs, votes := a.progress.intervals[e], VotesAt(l);
            && ivs[j].last in votes
            && (j + 1 < |ivs| ==> ivs[j + 1].first in votes)
            && GetQuorumTickData(rebuild, a, ivs[j].last) == KeptVotes(
                 if j + 1 < |ivs| then Some(FullOf(k, votes[ivs[j + 1].first]))
                 else if j == 0 || ivs[j].first < ivs[j].last then Some(FullOf(k, votes[ivs[j].last]))
                 else None)
  {
    var ivs := a.progress.intervals[e];
    var i := EndWasProcessed(a, l, e, j);
    VotesAtEntry(l, i);
    ExactIsReached(a, l);
    LoggedIsSeen(a, l, NO_LOSS, i);
    CoveredTickDispatch(rebuild, a, l, NO_LOSS, l[i].tick);
    EndsOnlyOnce(ivs, j);
    EntryAt(k, a, l, e, j);
  }

  lemma EndWasProcessed(a: Archive, l: Log, e: uint32, j: nat) returns (i: nat)
    requires ProgressOk(a, l) && e in a.progress.intervals && j < |a.progress.intervals[e]|
    ensures i < |l| && l[i].tick == ProcessedTick(a.progress.intervals[e][j].last, e)
    ensures l[i].tick in TicksIn(l)
    ensures forall m, n :: 0 <= m < n < |l| ==> l[m].tick.tick < l[n].tick.tick
    ensures Separated(a.progress.intervals[e]) && ListOk(a.progress.intervals[e])
  {
    var h := TicksIn(l);
    var iv := a.progress.intervals[e][j];
    Gate.CoveredIsProcessed(a.progress, h, NO_LOSS, e, iv, iv.last);
    i :| 0 <= i < |h| && h[i] == ProcessedTick(iv.last, e);
    forall m, n | 0 <= m < n < |l| ensures l[m].tick.tick < l[n].tick.tick {
      assert h[m].tick < h[n].tick;
    }
  }

  lemma EntryAt(k: Codec, a: Archive, l: Log, e: uint32, j: nat)
    requires KeptOk(k, a, l) && e in a.progress.intervals && j < |a.progress.intervals[e]|
    ensures EntryIs(k, VotesAt(l), a.progress.intervals[e], LastQuorumOf(a, e), j)
  {
    assert EntriesOk(k, VotesAt(l), IntervalsOf(a.progress, e), LastQuorumOf(a, e));
  }

  lemma EndsOnlyOnce(ivs: seq<Interval>, j: nat)
    requires Separated(ivs) && ListOk(ivs) && j < |ivs|
    ensures Gate.EndsAt(ivs, ivs[j].last, 0) == Some(j)
  {
    assert Gate.EndsAt(ivs, ivs[j].last, 0).Some?;
    assert forall i :: 0 <= i < |ivs| && i != j ==> ivs[i].last != ivs[j].last;
  }
}
