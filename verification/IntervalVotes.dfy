/** The votes served for every tick after any run, and, for runs of whole passes, exactly when the votes
    kept for the last tick of a processed range are the tick's own. */
module IntervalVotes {
  import opened Bytes
  import opened Wrappers
  import opened Progress
  import opened RunInvariant
  import opened CleanRuns
  import Gate
  import opened GateRuns
  import opened Votes
  import opened QuorumRecords
  import opened Archive
  import opened ArchiveRuns
  import opened QuorumLookup
  import opened StoredComputors

  /** Votes name the tick they are recorded for. */
  ghost predicate VotesNameTicks(l: Log)
  {
    forall i :: 0 <= i < |l| ==> l[i].votes[0].tick == l[i].tick.tick
  }

  lemma {:induction false} RecordedVotesNameTick(l: Log, t: uint32)
    requires VotesNameTicks(l) && t in VotesAt(l)
    ensures VotesAt(l)[t][0].tick == t
  {
    var init := l[..|l| - 1];
    if l[|l| - 1].tick.tick != t {
      RecordedVotesNameTick(init, t);
    }
  }

  lemma DifferentTicksDiffer(k: Codec, a: Ballot, b: Ballot)
    requires a[0].tick != b[0].tick
    ensures FullOf(k, a) != FullOf(k, b)
  {
    assert FullOf(k, a).structure.tick == a[0].tick && FullOf(k, b).structure.tick == b[0].tick;
  }

  /** The end of an interval is served its own votes exactly if no later interval of the epoch exists
      and the interval is the epoch's first or has more than one tick. */
  lemma OwnVotesIff(k: Codec, rebuild: Rebuild, run: seq<Action>, e: uint32, j: nat)
    requires ActionsOk(k, run) && Whole(run) && VotesNameTicks(LogOf(k, run))
    requires var ivs := IntervalsOf(FinalArchive(k, run).progress, e); j < |ivs|
    ensures var a, votes := FinalArchive(k, run), VotesAt(LogOf(k, run));
            var ivs := IntervalsOf(a.progress, e);
            && ivs[j].last in votes
            && (GetQuorumTickData(rebuild, a, ivs[j].last) == KeptVotes(Some(FullOf(k, votes[ivs[j].last])))
                <==> j + 1 == |ivs| && (j == 0 || ivs[j].first < ivs[j].last))
  {
    WholeRunKeepsArchive(k, run);
    RunKeepsKept(k, run);
    OwnVotesInState(k, rebuild, FinalArchive(k, run), LogOf(k, run), e, j);
  }

  lemma OwnVotesInState(k: Codec, rebuild: Rebuild, a: Archive, l: Log, e: uint32, j: nat)
    requires ArchiveOk(k, a, l) && KeptOk(k, a, l) && VotesNameTicks(l)
    requires e in a.progress.intervals && j < |a.progress.intervals[e]|
    ensures var ivs, votes := a.progress.intervals[e], VotesAt(l);
            && ivs[j].last in votes
            && (GetQuorumTickData(rebuild, a, ivs[j].last) == KeptVotes(Some(FullOf(k, votes[ivs[j].last])))
                <==> j + 1 == |ivs| && (j == 0 || ivs[j].first < ivs[j].last))
  {
    EndTickAnswer(k, rebuild, a, l, e, j);
    var ivs := a.progress.intervals[e];
    if j + 1 < |ivs| {
      NextStartsLater(a, l, e, j);
      RecordedVotesNameTick(l, ivs[j].last);
      RecordedVotesNameTick(l, ivs[j + 1].first);
      DifferentTicksDiffer(k, VotesAt(l)[ivs[j].last], VotesAt(l)[ivs[j + 1].first]);
    }
  }

  lemma NextStartsLater(a: Archive, l: Log, e: uint32, j: nat)
    requires ProgressOk(a, l) && e in a.progress.intervals && j + 1 < |a.progress.intervals[e]|
    ensures a.progress.intervals[e][j].last < a.progress.intervals[e][j + 1].first
  {
    assert Separated(a.progress.intervals[e]);
  }

  // ---------- every tick, over runs ----------

  /** After any run, interrupted anywhere, a tick that was neither processed nor left as a stray, or whose
      interval write was lost or is pending, is beyond the last one or has no epoch. */
  lemma UncoveredOverRuns(k: Codec, rebuild: Rebuild, run: seq<Action>, t: uint32)
    requires ActionsOk(k, run) && RunOk(AttemptsOf(run))
    requires var f := FateOf(AttemptsOf(run)); Uncovered(f, t) || !Available(TicksIn(LogOf(k, run)), f, t)
    ensures var l := LogOf(k, run);
            GetQuorumTickData(rebuild, FinalArchive(k, run), t) ==
            if l == [] then NothingProcessed
            else if t > l[|l| - 1].tick.tick then TooNew(l[|l| - 1].tick.tick)
            else UnknownEpoch
  {
    RunReaches(k, run);
    UncoveredTickDispatch(rebuild, FinalArchive(k, run), LogOf(k, run), FateOf(AttemptsOf(run)), t);
  }

  /** After any run, a tick that intervals cover is answered from the entry of the first interval that ends
      there, if any, and otherwise was processed together with the next tick of its epoch, and is answered
      from the records of the two. So the branches for skipped ticks, for the last processed tick and for
      absent records are dead. */
  lemma CoveredOverRuns(k: Codec, rebuild: Rebuild, run: seq<Action>, x: ProcessedTick) returns (i: nat, n: nat)
    requires ActionsOk(k, run) && RunOk(AttemptsOf(run)) && LogOf(k, run) != []
    requires var l, f := LogOf(k, run), FateOf(AttemptsOf(run));
             && x.tick <= l[|l| - 1].tick.tick && Seen(TicksIn(l), f, x.epoch, x.tick) && !Uncovered(f, x.tick)
    ensures var a, l := FinalArchive(k, run), LogOf(k, run);
            && x.epoch in a.progress.intervals
            && match Gate.EndsAt(a.progress.intervals[x.epoch], x.tick, 0)
               case Some(j) =>
                 GetQuorumTickData(rebuild, a, x.tick)
                 == KeptVotes(if j in LastQuorumOf(a, x.epoch) then Some(LastQuorumOf(a, x.epoch)[j]) else None)
               case None =>
                 && i < |l| && l[i].tick == x && n < |l| && l[n].tick.tick == x.tick + 1 && l[n].tick.epoch == x.epoch
                 && x.epoch in a.computors
                 && GetQuorumTickData(rebuild, a, x.tick)
                    == rebuild(StoredOf(k, l[i].votes), StoredOf(k, l[n].votes), a.computors[x.epoch])
  {
    var a, l, f := FinalArchive(k, run), LogOf(k, run), FateOf(AttemptsOf(run));
    RunReaches(k, run);
    CoveredTickDispatch(rebuild, a, l, f, x);
    i, n := 0, 0;
    if Gate.EndsAt(a.progress.intervals[x.epoch], x.tick, 0).None? {
      i := InnerIsLogged(a, l, f, x);
      n := InnerTickAnswer(k, rebuild, a, l, f, i);
    }
  }

  lemma InnerIsLogged(a: Archive, l: Log, f: Fate, x: ProcessedTick) returns (i: nat)
    requires Reached(a, l, f) && Seen(TicksIn(l), f, x.epoch, x.tick) && !Uncovered(f, x.tick)
    requires x.epoch in a.progress.intervals && Gate.EndsAt(a.progress.intervals[x.epoch], x.tick, 0).None?
    ensures i < |l| && l[i].tick == x
    ensures forall iv :: iv in IntervalsOf(a.progress, x.epoch) ==> iv.last != x.tick
  {
    var h := TicksIn(l);
    if x in f.stray {
      StrayEndsInterval(a.progress, h, f, x);
    }
    i :| 0 <= i < |h| && h[i] == x;
  }

  /** After any run, interrupted anywhere, a processed tick that intervals cover and that ends none is
      answered with the full form of the votes validated for it exactly if its epoch uses the new format
      and the salts match the next tick's digests. The lists of computors that came with the passes of the
      epoch are assumed to name the voting keys. */
  lemma InnerTickOverRuns(k: Codec, run: seq<Action>, i: nat, keys: seq<Digest>) returns (n: nat)
    requires ActionsOk(k, run) && RunOk(AttemptsOf(run)) && i < |LogOf(k, run)|
    requires !Uncovered(FateOf(AttemptsOf(run)), LogOf(k, run)[i].tick.tick)
    requires var a, e := FinalArchive(k, run), LogOf(k, run)[i];
             && (forall iv :: iv in IntervalsOf(a.progress, e.tick.epoch) ==> iv.last != e.tick.tick)
             && ReportedMatch(k, run, e.tick.epoch, keys, e.votes)
    ensures var l := LogOf(k, run);
            && n < |l| && l[n].tick.tick == l[i].tick.tick + 1 && l[n].tick.epoch == l[i].tick.epoch
            && (forall m :: m in QuorumRecords.Kept(l[i].votes) ==> m < |keys|)
            && (GetQuorumTickData(RebuildWith(k), FinalArchive(k, run), l[i].tick.tick)
                == RebuiltVotes(FullOf(k, l[i].votes))
                <==> l[i].tick.epoch >= 151 && AllSaltsMatch(k, keys, l[i].votes, l[n].votes[0]))
  {
    RunReaches(k, run);
    EntryFacts(k, FinalArchive(k, run), LogOf(k, run), i);
    StoredMatch(k, run, LogOf(k, run)[i].tick.epoch, keys, LogOf(k, run)[i].votes);
    n := InnerTickServedInFull(k, FinalArchive(k, run), LogOf(k, run), FateOf(AttemptsOf(run)), i, keys);
  }

  /** After any run of whole passes, what the end of interval `j` of an epoch is answered with. */
  lemma EndTickOverRuns(k: Codec, rebuild: Rebuild, run: seq<Action>, e: uint32, j: nat)
    requires ActionsOk(k, run) && Whole(run)
    requires j < |IntervalsOf(FinalArchive(k, run).progress, e)|
    ensures var a, votes := FinalArchive(k, run), VotesAt(LogOf(k, run));
            var ivs := IntervalsOf(a.progress, e);
            && ivs[j].last in votes
            && (j + 1 < |ivs| ==> ivs[j + 1].first in votes)
            && GetQuorumTickData(rebuild, a, ivs[j].last) == KeptVotes(
                 if j + 1 < |ivs| then Some(FullOf(k, votes[ivs[j + 1].first]))
                 else if j == 0 || ivs[j].first < ivs[j].last then Some(FullOf(k, votes[ivs[j].last]))
                 else None)
  {
    WholeRunKeepsArchive(k, run);
    RunKeepsKept(k, run);
    EndTickAnswer(k, rebuild, FinalArchive(k, run), LogOf(k, run), e, j);
  }
}
