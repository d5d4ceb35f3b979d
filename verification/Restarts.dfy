/** The program can start again after any run, interrupted anywhere: recalculation needs the data of every
    tick that an interval covers, and a pass writes the data before it touches an interval. */
module Restarts {
  import opened Bytes
  import opened Progress
  import opened RunInvariant
  import Gate
  import opened QuorumRecords
  import opened Archive
  import opened ArchiveRuns
  import opened EmptyTicks
  import QuorumLookup

  // ---------- data is never removed ----------

  lemma RecordsCutGrows(k: Codec, a: Archive, tick: uint32, v: Validated, n: nat)
    ensures a.tickData.Keys <= RecordsCut(k, a, tick, v, n).tickData.Keys
    ensures a.tickData.Keys <= StoreRecords(k, a, tick, v).tickData.Keys
  {
    assert StoreComputors(a, v.firstEpoch, v.computors).tickData == a.tickData;
  }

  lemma EmptyCutSame(a: Archive, epoch: uint32, n: nat)
    ensures EmptyCut(a, epoch, n).tickData == a.tickData
  {}

  lemma StoreCutGrows(k: Codec, a: Archive, initialTick: uint32, tick: uint32, v: Validated, n: nat)
    ensures a.tickData.Keys <= StoreCut(k, a, initialTick, tick, v, n).tickData.Keys
  {
    RecordsCutGrows(k, a, tick, v, n);
    if n > 4 {
      var a1 := StoreRecords(k, a, tick, v);
      var prev := PrevChainDigest(a1, initialTick, tick);
      if prev.Some? {
        EmptyCutSame(StoreChain(k, a1, tick, v.votes[0], prev.value), v.firstEpoch, n - 5);
      }
    }
  }

  lemma PassGrows(k: Codec, a: Archive, l: Log, r: Report, n: nat)
    requires BasicOk(k, a, l) && ReportOk(a, r) && Recorded(a, r)
    ensures a.tickData.Keys <= Process(k, a, r, n).tickData.Keys
    ensures n >= StoreSize(r.outcome.value) ==> Next(a.progress, r.info).tick in Process(k, a, r, n).tickData
  {
    if n >= StoreSize(r.outcome.value) {
      ProcessWrites(k, a, l, r, n);
    } else {
      StoreCutGrows(k, a, r.info.initialTick, Next(a.progress, r.info).tick, r.outcome.value, n);
    }
  }

  // ---------- strays have their data ----------

  ghost predicate StraysStored(tickData: map<uint32, Message>, f: Fate)
  {
    forall x :: x in f.stray ==> x.tick in tickData
  }

  lemma FateAppended(r: Run, more: Run)
    requires |more| <= 1
    ensures FateOf(r + more) == if more == [] then FateOf(r) else NextFate(Final(r), FateOf(r), more[0])
  {
    if more == [] {
      assert r + more == r;
    } else {
      assert (r + more)[..|r|] == r && (r + more)[|r|] == more[0];
    }
  }

  /** A pass can only leave the tick that it is over as a stray. */
  lemma NewStray(s: State, f: Fate, e: Attempt)
    ensures NextFate(s, f, e).stray <= f.stray + if Due(s, e.info) && e.writes > 0 then {Next(s, e.info)} else {}
  {}

  lemma ActStoresStrays(k: Codec, a: Archive, l: Log, x: Action, f: Fate)
    requires BasicOk(k, a, l) && ActionOk(a, x) && StraysStored(a.tickData, f)
    ensures var more := AttemptOf(x);
            StraysStored(Act(k, a, x).tickData, if more == [] then f else NextFate(a.progress, f, more[0]))
  {
    if x.Pass? && Recorded(a, x.report) {
      PassGrows(k, a, l, x.report, x.writes);
      NewStray(a.progress, f, AttemptOf(x)[0]);
    } else {
      IdleAct(k, a, x);
      if AttemptOf(x) != [] {
        NewStray(a.progress, f, AttemptOf(x)[0]);
      }
    }
  }

  lemma {:induction false} RunStoresStrays(k: Codec, run: seq<Action>)
    requires ActionsOk(k, run)
    ensures StraysStored(FinalArchive(k, run).tickData, FateOf(AttemptsOf(run)))
  {
    if run != [] {
      var before, x := run[..|run| - 1], run[|run| - 1];
      RunStoresStrays(k, before);
      RunKeepsArchive(k, before);
      ProgressOfRun(k, before);
      ActStoresStrays(k, FinalArchive(k, before), LogOf(k, before), x, FateOf(AttemptsOf(before)));
      FateAppended(AttemptsOf(before), AttemptOf(x));
    }
  }

  // ---------- recalculation ----------

  /** Every tick that was processed or left as a stray has its data. */
  ghost predicate SeenStored(tickData: map<uint32, Message>, h: History, f: Fate)
  {
    forall e, t: uint32 :: Seen(h, f, e, t) ==> t in tickData
  }

  lemma OffsetAt(iv: Interval, j: nat)
    requires iv.first <= iv.last && j < |OffsetTicks(iv)|
    ensures OffsetTicks(iv)[j] == iv.first + j <= iv.last
  {}

  lemma IntervalStored(a: Archive, h: History, f: Fate, e: uint32, i: nat)
    requires Inv(a.progress, h, f) && SeenStored(a.tickData, h, f)
    requires e in a.progress.intervals && i < |a.progress.intervals[e]|
    ensures AllStored(a.tickData, OffsetTicks(a.progress.intervals[e][i]))
  {
    var iv := a.progress.intervals[e][i];
    EndsAreSeen(a.progress, h, f, e, i);
    var ts := OffsetTicks(iv);
    forall j | 0 <= j < |ts| ensures ts[j] in a.tickData {
      OffsetAt(iv, j);
      Gate.CoveredIsSeen(a.progress, h, f, e, iv, ts[j]);
    }
  }

  lemma {:induction false} AllIntervalsStored(tickData: map<uint32, Message>, ivs: seq<Interval>)
    requires forall i :: 0 <= i < |ivs| ==> AllStored(tickData, OffsetTicks(ivs[i]))
    ensures AllStored(tickData, AllOffsetTicks(ivs))
  {
    if ivs != [] {
      var init := ivs[..|ivs| - 1];
      AllIntervalsStored(tickData, init);
      AllStoredConcat(tickData, AllOffsetTicks(init), OffsetTicks(ivs[|ivs| - 1]));
    }
  }

  lemma CanCalculate(a: Archive, h: History, f: Fate, e: uint32)
    requires Inv(a.progress, h, f) && SeenStored(a.tickData, h, f)
    ensures Calculate(a, e).Some?
  {
    if e in a.progress.intervals {
      QuorumLookup.StoredListFound(a.progress, h, f, e);
      forall i | 0 <= i < |a.progress.intervals[e]|
        ensures AllStored(a.tickData, OffsetTicks(a.progress.intervals[e][i]))
      {
        IntervalStored(a, h, f, e, i);
      }
      AllIntervalsStored(a.tickData, a.progress.intervals[e]);
    } else {
      NoListFound(a.progress, e);
    }
  }

  lemma LogStored(k: Codec, a: Archive, l: Log, f: Fate)
    requires RecordsOk(k, a, l) && StraysStored(a.tickData, f)
    ensures SeenStored(a.tickData, TicksIn(l), f)
  {
    forall e: uint32, t: uint32 | Seen(TicksIn(l), f, e, t) ensures t in a.tickData {
      if ProcessedTick(t, e) in TicksIn(l) {
        var i :| 0 <= i < |l| && TicksIn(l)[i] == ProcessedTick(t, e);
        assert RecordOk(k, a, l[i]);
      }
    }
  }

  /** After any run, interrupted and restarted anywhere, whose reports are not behind one another, the
      empty ticks of every epoch can be recomputed, so the program can start again. */
  lemma CanAlwaysStart(k: Codec, run: seq<Action>)
    requires ActionsOk(k, run) && RunOk(AttemptsOf(run))
    ensures forall e: uint32 :: Calculate(FinalArchive(k, run), e).Some?
    ensures MayRecalculate(Reset(FinalArchive(k, run)), RecordedEpochs(FinalArchive(k, run)))
  {
    var a := FinalArchive(k, run);
    RunKeepsArchive(k, run);
    ProgressOfRun(k, run);
    RunKeepsInv(AttemptsOf(run));
    RunStoresStrays(k, run);
    LogStored(k, a, LogOf(k, run), FateOf(AttemptsOf(run)));
    forall e: uint32 ensures Calculate(a, e).Some? {
      CanCalculate(a, TicksIn(LogOf(k, run)), FateOf(AttemptsOf(run)), e);
    }
    ResetCanRecalculate(a);
  }
}
