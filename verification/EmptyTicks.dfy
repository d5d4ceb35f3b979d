/** The empty-tick caches: the count and the list that recording maintains incrementally, and their
    recomputation from the stored intervals and tick data. */
module EmptyTicks {
  import opened Bytes
  import opened Wrappers
  import opened Progress
  import opened RunInvariant
  import opened CleanRuns
  import Gate
  import QuorumLookup
  import QuorumRecords
  import opened Archive
  import opened ArchiveRuns

  // ---------- recomputation ----------

  lemma EmptyOnlySnoc(tickData: map<uint32, Message>, ts: seq<uint32>, t: uint32)
    ensures EmptyOnly(tickData, ts + [t]) == EmptyOnly(tickData, ts) + if HasNoData(tickData, t) then [t] else []
  {
    assert (ts + [t])[..|ts|] == ts;
  }

  lemma {:induction false} EmptyOnlyConcat(tickData: map<uint32, Message>, ts: seq<uint32>, us: seq<uint32>)
    ensures EmptyOnly(tickData, ts + us) == EmptyOnly(tickData, ts) + EmptyOnly(tickData, us)
  {
    if us == [] {
      assert ts + us == ts;
    } else {
      var init, u := us[..|us| - 1], us[|us| - 1];
      EmptyOnlyConcat(tickData, ts, init);
      assert ts + us == (ts + init) + [u];
      EmptyOnlySnoc(tickData, ts + init, u);
    }
  }

  /** The loop over the ticks of one interval. */
  method EmptyTicksOfInterval(tickData: map<uint32, Message>, iv: Interval) returns (r: Option<seq<uint32>>)
    ensures r == EmptyAmong(tickData, OffsetTicks(iv))
  {
    ghost var all := OffsetTicks(iv);
    var found: seq<uint32> := [];
    for offset := 0 to Succ(Distance(iv.last, iv.first))
      invariant AllStored(tickData, all[..offset])
      invariant found == EmptyOnly(tickData, all[..offset])
    {
      var tick := Offset(iv, offset);
      assert all[offset] == tick;
      if tick !in tickData {
        return None;
      }
      assert all[..offset + 1] == all[..offset] + [tick];
      EmptyOnlySnoc(tickData, all[..offset], tick);
      if tickData[tick] == EMPTY_MESSAGE {
        found := found + [tick];
      }
    }
    assert all[..|all|] == all;
    return Some(found);
  }

  /** The loop over one epoch's intervals. */
  method EmptyTicksOfIntervals(tickData: map<uint32, Message>, ivs: seq<Interval>) returns (r: Option<seq<uint32>>)
    ensures r == EmptyAmong(tickData, AllOffsetTicks(ivs))
  {
    var found: seq<uint32> := [];
    for i := 0 to |ivs|
      invariant AllStored(tickData, AllOffsetTicks(ivs[..i]))
      invariant found == EmptyOnly(tickData, AllOffsetTicks(ivs[..i]))
    {
      var more := EmptyTicksOfInterval(tickData, ivs[i]);
      OffsetsUpTo(ivs, i);
      if more.None? {
        MissingInOne(tickData, ivs, i);
        return None;
      }
      EmptyOnlyConcat(tickData, AllOffsetTicks(ivs[..i]), OffsetTicks(ivs[i]));
      found := found + more.value;
    }
    assert ivs[..|ivs|] == ivs;
    return Some(found);
  }

  lemma AllStoredConcat(tickData: map<uint32, Message>, ts: seq<uint32>, us: seq<uint32>)
    ensures AllStored(tickData, ts + us) <==> AllStored(tickData, ts) && AllStored(tickData, us)
  {
    if AllStored(tickData, ts + us) {
      forall i | 0 <= i < |ts| ensures ts[i] in tickData {
        assert (ts + us)[i] == ts[i];
      }
      forall i | 0 <= i < |us| ensures us[i] in tickData {
        assert (ts + us)[|ts| + i] == us[i];
      }
    }
  }

  lemma {:induction false} MissingInOne(tickData: map<uint32, Message>, ivs: seq<Interval>, i: nat)
    requires i < |ivs| && !AllStored(tickData, OffsetTicks(ivs[i]))
    ensures !AllStored(tickData, AllOffsetTicks(ivs))
  {
    var init := ivs[..|ivs| - 1];
    if i < |init| {
      MissingInOne(tickData, init, i);
    }
    AllStoredConcat(tickData, AllOffsetTicks(init), OffsetTicks(ivs[|ivs| - 1]));
  }

  lemma OffsetsUpTo(ivs: seq<Interval>, i: nat)
    requires i < |ivs|
    ensures AllOffsetTicks(ivs[..i + 1]) == AllOffsetTicks(ivs[..i]) + OffsetTicks(ivs[i])
  {
    assert ivs[..i + 1][..i] == ivs[..i];
  }

  // ---------- agreement ----------

  /** The empty ticks recorded in an epoch, oldest first. */
  function EmptiesOf(l: Log, epoch: int): (r: seq<uint32>)
  {
    if l == [] then []
    else
      var e := l[|l| - 1];
      EmptiesOf(l[..|l| - 1], epoch) + if e.tick.epoch == epoch && IsEmpty(e.data) then [e.tick.tick] else []
  }

  lemma EmptiesOfSnoc(l: Log, e: Entry, epoch: int)
    ensures EmptiesOf(l + [e], epoch)
            == EmptiesOf(l, epoch) + if e.tick.epoch == epoch && IsEmpty(e.data) then [e.tick.tick] else []
  {
    assert (l + [e])[..|l|] == l;
  }

  /** The entry is about the tick in the epoch, which was recorded without data, or with an empty message. */
  predicate EmptyEntry(e: Entry, epoch: int, t: uint32)
  {
    e.tick.tick == t && e.tick.epoch == epoch && (e.data == None || e.data == Some([]))
  }

  lemma {:induction false} EmptiesMeaning(l: Log, epoch: int, t: uint32)
    ensures t in EmptiesOf(l, epoch) <==> exists i :: 0 <= i < |l| && EmptyEntry(l[i], epoch, t)
  {
    if l != [] {
      var init := l[..|l| - 1];
      EmptiesMeaning(init, epoch, t);
      if i :| 0 <= i < |init| && EmptyEntry(init[i], epoch, t) {
        assert EmptyEntry(l[i], epoch, t);
      }
      if i :| 0 <= i < |l| && EmptyEntry(l[i], epoch, t) {
        assert i < |init| ==> EmptyEntry(init[i], epoch, t);
      }
    }
  }

  lemma {:induction false} EmptiesBounded(l: Log, epoch: int, bound: nat)
    requires forall i :: 0 <= i < |l| ==> 1 <= l[i].tick.tick <= bound
    requires forall i, j :: 0 <= i < j < |l| ==> l[i].tick.tick < l[j].tick.tick
    ensures |EmptiesOf(l, epoch)| <= bound
  {
    if l != [] {
      var init := l[..|l| - 1];
      EmptiesBounded(init, epoch, l[|l| - 1].tick.tick - 1);
    }
  }

  /** The maintained list is that of the log, and the count is its length; absent reads as empty. */
  ghost predicate CacheFollows(a: Archive, l: Log)
  {
    forall e: uint32 :: EmptyListOf(a, e) == EmptiesOf(l, e) && EmptyCountOf(a, e) == |EmptiesOf(l, e)|
  }

  lemma CacheAfterStep(a: Archive, a': Archive, l: Log, n: Entry)
    requires CacheFollows(a, l) && |EmptiesOf(l, n.tick.epoch)| < MAX_UINT32
    requires CacheWrites(a, n, a')
    ensures CacheFollows(a', l + [n])
  {
    forall e: uint32
      ensures EmptyListOf(a', e) == EmptiesOf(l + [n], e) && EmptyCountOf(a', e) == |EmptiesOf(l + [n], e)|
    {
      EmptiesOfSnoc(l, n, e);
      assert EmptyListOf(a, e) == EmptiesOf(l, e);
      EpochCacheAfter(a, a', n, e, EmptiesOf(l, e));
    }
  }

  lemma StoredEmpty(a: Archive, epoch: uint32, tick: uint32)
    ensures var a' := StoreEmpty(a, epoch, tick);
            var list := if EmptyCountOf(a, epoch) == 0 then [] else EmptyListOf(a, epoch);
            && a'.emptyCount == a.emptyCount[epoch := Succ(EmptyCountOf(a, epoch))]
            && a'.emptyList == a.emptyList[epoch := list + [tick]]
  {
    var b := InitEmpty(a, epoch);
    assert EmptyCountOf(b, epoch) == EmptyCountOf(a, epoch);
    assert CountEmpty(b, epoch).emptyList == b.emptyList;
  }

  lemma EpochCacheAfter(a: Archive, a': Archive, n: Entry, e: uint32, empties: seq<uint32>)
    requires EmptyListOf(a, e) == empties && EmptyCountOf(a, e) == |empties|
    requires e == n.tick.epoch ==> |empties| < MAX_UINT32
    requires CacheWrites(a, n, a')
    ensures var empties' := empties + if n.tick.epoch == e && IsEmpty(n.data) then [n.tick.tick] else [];
            EmptyListOf(a', e) == empties' && EmptyCountOf(a', e) == |empties'|
  {
    if IsEmpty(n.data) {
      StoredEmpty(a, n.tick.epoch, n.tick.tick);
    }
    assert empties + [] == empties;
  }

  lemma LogAscends(a: Archive, l: Log)
    requires ProgressOk(a, l)
    ensures forall i :: 0 <= i < |l| ==> 1 <= l[i].tick.tick < MAX_UINT32
    ensures forall i, j :: 0 <= i < j < |l| ==> l[i].tick.tick < l[j].tick.tick
  {
    var h := TicksIn(l);
    forall i | 0 <= i < |l| ensures 1 <= l[i].tick.tick < MAX_UINT32 {
      assert h[i] == l[i].tick;
    }
    forall i, j | 0 <= i < j < |l| ensures l[i].tick.tick < l[j].tick.tick {
      assert h[i].tick < h[j].tick;
    }
  }

  // ---------- recomputation of a reachable state ----------

  lemma OffsetsAreTicks(iv: Interval)
    requires iv.first <= iv.last < MAX_UINT32
    ensures OffsetTicks(iv) == Ticks(iv.first, iv.last)
  {
    assert Succ(Distance(iv.last, iv.first)) == iv.last - iv.first + 1;
    forall i | 0 <= i < iv.last - iv.first + 1 ensures OffsetTicks(iv)[i] == iv.first + i {}
  }

  lemma {:induction false} OffsetsAreExpansion(ivs: seq<Interval>)
    requires forall i :: 0 <= i < |ivs| ==> ivs[i].first <= ivs[i].last < MAX_UINT32
    ensures AllOffsetTicks(ivs) == Expand(ivs)
  {
    if ivs != [] {
      OffsetsAreExpansion(ivs[..|ivs| - 1]);
      OffsetsAreTicks(ivs[|ivs| - 1]);
    }
  }

  /** Stored tick data tells for every recorded tick whether it is empty. */
  ghost predicate DataFollows(tickData: map<uint32, Message>, l: Log)
  {
    forall i :: 0 <= i < |l| ==>
      l[i].tick.tick in tickData && (HasNoData(tickData, l[i].tick.tick) <==> IsEmpty(l[i].data))
  }

  lemma RecordsHoldData(k: QuorumRecords.Codec, a: Archive, l: Log)
    requires RecordsOk(k, a, l)
    ensures DataFollows(a.tickData, l)
  {
    forall i | 0 <= i < |l|
      ensures l[i].tick.tick in a.tickData && (HasNoData(a.tickData, l[i].tick.tick) <==> IsEmpty(l[i].data))
    {
      assert RecordOk(k, a, l[i]);
    }
  }

  lemma EmptyAmongNext(tickData: map<uint32, Message>, ts: seq<uint32>, e: Entry, epoch: uint32, found: seq<uint32>)
    requires AllStored(tickData, ts) && EmptyOnly(tickData, ts) == found
    requires e.tick.tick in tickData && (HasNoData(tickData, e.tick.tick) <==> IsEmpty(e.data))
    ensures var ts' := ts + if e.tick.epoch == epoch then [e.tick.tick] else [];
            && AllStored(tickData, ts')
            && EmptyOnly(tickData, ts')
               == found + if e.tick.epoch == epoch && IsEmpty(e.data) then [e.tick.tick] else []
  {
    if e.tick.epoch == epoch {
      EmptyOnlySnoc(tickData, ts, e.tick.tick);
    } else {
      assert ts + [] == ts;
    }
  }

  lemma {:induction false} EmptyAmongRecorded(tickData: map<uint32, Message>, l: Log, epoch: uint32)
    requires DataFollows(tickData, l)
    ensures AllStored(tickData, TicksOf(TicksIn(l), epoch))
    ensures EmptyOnly(tickData, TicksOf(TicksIn(l), epoch)) == EmptiesOf(l, epoch)
  {
    if l != [] {
      var init, e := l[..|l| - 1], l[|l| - 1];
      EmptyAmongRecorded(tickData, init, epoch);
      EmptyAmongNext(tickData, TicksOf(TicksIn(init), epoch), e, epoch, EmptiesOf(init, epoch));
      assert TicksIn(l)[..|l| - 1] == TicksIn(init);
    }
  }

  lemma CalculateIsLog(k: QuorumRecords.Codec, a: Archive, l: Log, epoch: uint32)
    requires ProgressOk(a, l) && RecordsOk(k, a, l)
    ensures Calculate(a, epoch) == Some(EmptiesOf(l, epoch))
  {
    RecordsHoldData(k, a, l);
    EmptyAmongRecorded(a.tickData, l, epoch);
    ExpansionOf(a, l, epoch);
    OffsetsFound(a, l, epoch);
  }

  /** The recomputation goes over the ticks of the epoch's expanded intervals. */
  lemma OffsetsFound(a: Archive, l: Log, epoch: uint32)
    requires ProgressOk(a, l)
    ensures Calculate(a, epoch) == EmptyAmong(a.tickData, Expand(IntervalsOf(a.progress, epoch)))
  {
    if epoch in a.progress.intervals {
      ListFound(a, l, epoch);
      IntervalsInRange(a, l, epoch);
      OffsetsAreExpansion(a.progress.intervals[epoch]);
      CalculateFound(a, epoch);
    } else {
      NoListFound(a.progress, epoch);
      CalculateNotFound(a, epoch);
    }
  }

  lemma CalculateFound(a: Archive, epoch: uint32)
    requires epoch in a.progress.intervals
    requires Gate.EntryOf(epoch, AllIntervals(a.progress)) == Some(a.progress.intervals[epoch])
    requires AllOffsetTicks(a.progress.intervals[epoch]) == Expand(a.progress.intervals[epoch])
    ensures Calculate(a, epoch) == EmptyAmong(a.tickData, Expand(IntervalsOf(a.progress, epoch)))
  {}

  lemma CalculateNotFound(a: Archive, epoch: uint32)
    requires epoch !in a.progress.intervals && Gate.EntryOf(epoch, AllIntervals(a.progress)) == None
    ensures Calculate(a, epoch) == EmptyAmong(a.tickData, Expand(IntervalsOf(a.progress, epoch)))
  {
    assert Expand([]) == [] && EmptyAmong(a.tickData, []) == Some([]);
  }

  lemma NoListFound(s: State, epoch: uint32)
    requires epoch !in s.intervals
    ensures Gate.EntryOf(epoch, AllIntervals(s)) == None
  {
    ListNotFound(epoch, AllIntervals(s));
  }

  lemma ExpansionOf(a: Archive, l: Log, epoch: uint32)
    requires ProgressOk(a, l)
    ensures Expand(IntervalsOf(a.progress, epoch)) == TicksOf(TicksIn(l), epoch)
  {}

  lemma IntervalsInRange(a: Archive, l: Log, epoch: uint32)
    requires ProgressOk(a, l) && epoch in a.progress.intervals
    ensures forall i :: 0 <= i < |a.progress.intervals[epoch]| ==>
              a.progress.intervals[epoch][i].first <= a.progress.intervals[epoch][i].last < MAX_UINT32
  {
    AllBelowNext(a.progress, TicksIn(l), NO_LOSS, MAX_UINT32);
  }

  lemma ListFound(a: Archive, l: Log, epoch: uint32)
    requires ProgressOk(a, l) && epoch in a.progress.intervals
    ensures Gate.EntryOf(epoch, AllIntervals(a.progress)) == Some(a.progress.intervals[epoch])
  {
    QuorumLookup.StoredListFound(a.progress, TicksIn(l), NO_LOSS, epoch);
  }

  lemma {:induction false} ListNotFound(epoch: uint32, all: seq<EpochIntervals>)
    requires forall i :: 0 <= i < |all| ==> all[i].epoch != epoch
    ensures Gate.EntryOf(epoch, all) == None
  {
    if all != [] {
      ListNotFound(epoch, all[1..]);
    }
  }

  /** The maintained count and list of an epoch are what recomputation would give. */
  ghost predicate CacheExact(a: Archive, epoch: uint32)
  {
    Calculate(a, epoch) == Some(EmptyListOf(a, epoch)) && EmptyCountOf(a, epoch) == |EmptyListOf(a, epoch)|
  }

  // ---------- runs ----------

  /** Recomputation does not look at the caches. */
  lemma CalculateIgnoresCaches(a: Archive, b: Archive, epoch: uint32)
    requires b.progress == a.progress && b.tickData == a.tickData
    ensures Calculate(b, epoch) == Calculate(a, epoch)
  {}

  lemma EmptiesFewer(k: QuorumRecords.Codec, a: Archive, l: Log, epoch: int)
    requires ArchiveOk(k, a, l)
    ensures |EmptiesOf(l, epoch)| < MAX_UINT32
  {
    LogAscends(a, l);
    EmptiesBounded(l, epoch, MAX_UINT32 - 1);
  }

  lemma PassKeepsCache(k: QuorumRecords.Codec, a: Archive, l: Log, r: Report, n: nat)
    requires ArchiveOk(k, a, l) && CacheFollows(a, l) && ReportOk(a, r) && Recorded(a, r) && n >= ALL
    ensures CacheFollows(Process(k, a, r, n), l + [EntryOf(a, r)])
  {
    WholePass(k, a, l, r, n);
    EmptiesFewer(k, a, l, EntryOf(a, r).tick.epoch);
    CacheAfterStep(a, Process(k, a, r, n), l, EntryOf(a, r));
  }

  lemma FoundIs(a: Archive, b: Archive, e: uint32, found: seq<uint32>)
    requires b.progress == a.progress && b.tickData == a.tickData && Calculate(a, e) == Some(found)
    ensures Found(b, e) == found
  {
    CalculateIgnoresCaches(a, b, e);
  }

  /** Recalculation writes the caches of the epochs it goes through, and no others. */
  lemma RecalculatedCaches(b: Archive, done: set<uint32>, e: uint32, found: seq<uint32>)
    requires e in done ==> Found(b, e) == found
    ensures var a' := Recalculate(b, done);
            && EmptyListOf(a', e) == (if e in done then found else EmptyListOf(b, e))
            && EmptyCountOf(a', e) == (if e in done then |found| % 0x1_0000_0000 else EmptyCountOf(b, e))
            && (e in a'.emptyList <==> e in b.emptyList || e in done)
  {}

  /** The caches of one epoch after a start of the program: recomputed, or as they were. */
  lemma StartedEpoch(a: Archive, reset: bool, done: set<uint32>, e: uint32, found: seq<uint32>)
    requires MayRecalculate(BeforeRecalculation(a, reset), done)
    requires Calculate(a, e) == Some(found) && |found| < MAX_UINT32
    requires EmptyListOf(a, e) == found && EmptyCountOf(a, e) == |found|
    ensures EpochReads(Recalculate(BeforeRecalculation(a, reset), done), e, found, e in a.emptyList || e in done)
  {
    var b := BeforeRecalculation(a, reset);
    FoundIs(a, b, e, found);
    if e !in done {
      NotReset(a, reset, done, e);
    }
    RecalculatedCaches(b, done, e, found);
    ReadsAfter(b, Recalculate(b, done), done, e, found, e in a.emptyList);
  }

  /** The caches of an epoch read as a list, and whether the list is stored. */
  ghost predicate EpochReads(a: Archive, e: uint32, found: seq<uint32>, stored: bool)
  {
    EmptyListOf(a, e) == found && EmptyCountOf(a, e) == |found| && (e in a.emptyList <==> stored)
  }

  lemma ReadsAfter(b: Archive, a': Archive, done: set<uint32>, e: uint32, found: seq<uint32>, stored: bool)
    requires |found| < MAX_UINT32
    requires e !in done ==> EpochReads(b, e, found, stored)
    requires EmptyListOf(a', e) == (if e in done then found else EmptyListOf(b, e))
    requires EmptyCountOf(a', e) == (if e in done then |found| % 0x1_0000_0000 else EmptyCountOf(b, e))
    requires e in a'.emptyList <==> e in b.emptyList || e in done
    ensures EpochReads(a', e, found, stored || e in done)
  {}

  /** A reset removes only what the recalculation after it stores again. */
  lemma NotReset(a: Archive, reset: bool, done: set<uint32>, e: uint32)
    requires MayRecalculate(BeforeRecalculation(a, reset), done) && e !in done
    ensures var b := BeforeRecalculation(a, reset);
            && EmptyListOf(b, e) == EmptyListOf(a, e) && EmptyCountOf(b, e) == EmptyCountOf(a, e)
            && (e in b.emptyList <==> e in a.emptyList)
  {
    if reset {
      assert RecordedEpochs(Reset(a)) == RecordedEpochs(a);
      assert forall d :: d in RecordedEpochs(a) ==> d !in Reset(a).emptyCount;
    }
  }

  lemma StartKeepsCache(k: QuorumRecords.Codec, a: Archive, l: Log, reset: bool, done: set<uint32>)
    requires ArchiveOk(k, a, l) && CacheFollows(a, l) && MayRecalculate(BeforeRecalculation(a, reset), done)
    ensures CacheFollows(Recalculate(BeforeRecalculation(a, reset), done), l)
  {
    var a' := Recalculate(BeforeRecalculation(a, reset), done);
    forall e: uint32 ensures EmptyListOf(a', e) == EmptiesOf(l, e) && EmptyCountOf(a', e) == |EmptiesOf(l, e)| {
      assert EmptyListOf(a, e) == EmptiesOf(l, e);
      CalculateIsLog(k, a, l, e);
      EmptiesFewer(k, a, l, e);
      StartedEpoch(a, reset, done, e, EmptiesOf(l, e));
    }
  }

  lemma StartMeans(k: QuorumRecords.Codec, a: Archive, l: Log, x: Action)
    requires x.Start? && ActionOk(a, x)
    ensures MayRecalculate(BeforeRecalculation(a, x.reset), x.done)
    ensures Act(k, a, x) == Recalculate(BeforeRecalculation(a, x.reset), x.done) && l + NewEntries(k, a, x) == l
  {}

  lemma ActKeepsCache(k: QuorumRecords.Codec, a: Archive, l: Log, x: Action)
    requires ArchiveOk(k, a, l) && CacheFollows(a, l) && ActionOk(a, x) && (x.Pass? ==> x.writes >= ALL)
    ensures CacheFollows(Act(k, a, x), l + NewEntries(k, a, x))
  {
    if x.Pass? {
      AnyPassKeepsCache(k, a, l, x.report, x.writes);
    } else {
      StartMeans(k, a, l, x);
      StartKeepsCache(k, a, l, x.reset, x.done);
    }
  }

  lemma AnyPassKeepsCache(k: QuorumRecords.Codec, a: Archive, l: Log, r: Report, n: nat)
    requires ArchiveOk(k, a, l) && CacheFollows(a, l) && ReportOk(a, r) && n >= ALL
    ensures CacheFollows(Act(k, a, Pass(r, n)), l + NewEntries(k, a, Pass(r, n)))
  {
    if Recorded(a, r) {
      WholePassCaches(k, a, l, r, n);
      PassKeepsCache(k, a, l, r, n);
    } else {
      IdlePass(k, a, l, r, n);
    }
  }

  /** Every run of whole passes, restarted anywhere with or without a reset, keeps the caches. */
  lemma {:induction false} RunKeepsCache(k: QuorumRecords.Codec, run: seq<Action>)
    requires ActionsOk(k, run) && Whole(run)
    ensures CacheFollows(FinalArchive(k, run), LogOf(k, run))
  {
    if run != [] {
      var before := run[..|run| - 1];
      WholePrefix(run);
      RunKeepsCache(k, before);
      WholeRunKeepsArchive(k, before);
      ActKeepsCache(k, FinalArchive(k, before), LogOf(k, before), run[|run| - 1]);
    }
  }

  /** At every boundary of every such run the maintained list of each epoch is what recomputation gives,
      recomputation never fails, and the count is the list's length. */
  lemma CachesAreExact(k: QuorumRecords.Codec, run: seq<Action>, epoch: uint32)
    requires ActionsOk(k, run) && Whole(run)
    ensures CacheExact(FinalArchive(k, run), epoch)
  {
    WholeRunKeepsArchive(k, run);
    RunKeepsCache(k, run);
    CalculateIsLog(k, FinalArchive(k, run), LogOf(k, run), epoch);
  }

  /** Recalculation does not fail in such a state, so the program can always start. */
  lemma CanStart(k: QuorumRecords.Codec, run: seq<Action>)
    requires ActionsOk(k, run) && Whole(run)
    ensures MayRecalculate(Reset(FinalArchive(k, run)), RecordedEpochs(FinalArchive(k, run)))
  {
    WholeRunKeepsArchive(k, run);
    forall e: uint32 ensures Calculate(FinalArchive(k, run), e).Some? {
      CalculateIsLog(k, FinalArchive(k, run), LogOf(k, run), e);
    }
    ResetCanRecalculate(FinalArchive(k, run));
  }

  lemma ResetCanRecalculate(a: Archive)
    requires forall e: uint32 :: Calculate(a, e).Some?
    ensures MayRecalculate(Reset(a), RecordedEpochs(a))
  {
    forall e | e in RecordedEpochs(a) ensures e !in Reset(a).emptyCount && Calculate(Reset(a), e).Some? {
      CalculateIgnoresCaches(a, Reset(a), e);
    }
    assert RecordedEpochs(Reset(a)) == RecordedEpochs(a);
  }

  /** Reset followed by recalculation restores every recorded epoch's count and list, whatever order the
      epochs are visited in and whatever the caches held. */
  lemma RecalculationRestores(k: QuorumRecords.Codec, run: seq<Action>, a: Archive, done: set<uint32>, epoch: uint32)
    requires ActionsOk(k, run) && Whole(run)
    requires a == FinalArchive(k, run).(emptyCount := a.emptyCount, emptyList := a.emptyList)
    requires MayRecalculate(Reset(a), done) && epoch in RecordedEpochs(a)
    ensures var f, a' := FinalArchive(k, run), Recalculate(Reset(a), done);
            && CacheExact(a', epoch)
            && EmptyListOf(a', epoch) == EmptyListOf(f, epoch) && EmptyCountOf(a', epoch) == EmptyCountOf(f, epoch)
  {
    WholeRunKeepsArchive(k, run);
    RunKeepsCache(k, run);
    var f, l := FinalArchive(k, run), LogOf(k, run);
    assert EmptyListOf(f, epoch) == EmptiesOf(l, epoch);
    EmptiesFewer(k, f, l, epoch);
    CalculateIsLog(k, f, l, epoch);
    RestoredEpoch(f, a, done, epoch, EmptiesOf(l, epoch));
  }

  lemma RestoredEpoch(f: Archive, a: Archive, done: set<uint32>, epoch: uint32, found: seq<uint32>)
    requires a.progress == f.progress && a.tickData == f.tickData
    requires Calculate(f, epoch) == Some(found) && |found| < MAX_UINT32
    requires MayRecalculate(Reset(a), done) && epoch in RecordedEpochs(a)
    ensures var a' := Recalculate(Reset(a), done);
            CacheExact(a', epoch) && EmptyListOf(a', epoch) == found && EmptyCountOf(a', epoch) == |found|
  {
    RestoredReads(f, a, done, epoch, found);
    CalculateIgnoresCaches(f, Recalculate(Reset(a), done), epoch);
    ExactFromReads(Recalculate(Reset(a), done), epoch, found);
  }

  lemma RestoredReads(f: Archive, a: Archive, done: set<uint32>, epoch: uint32, found: seq<uint32>)
    requires a.progress == f.progress && a.tickData == f.tickData
    requires Calculate(f, epoch) == Some(found) && |found| < MAX_UINT32
    requires MayRecalculate(Reset(a), done) && epoch in RecordedEpochs(a)
    ensures EpochReads(Recalculate(Reset(a), done), epoch, found, true)
  {
    AllRecordedDone(a, done);
    FoundIs(f, Reset(a), epoch, found);
    RecalculatedCaches(Reset(a), done, epoch, found);
    ReadsAfter(Reset(a), Recalculate(Reset(a), done), done, epoch, found, true);
  }

  lemma ExactFromReads(a: Archive, epoch: uint32, found: seq<uint32>)
    requires Calculate(a, epoch) == Some(found) && EpochReads(a, epoch, found, true)
    ensures CacheExact(a, epoch) && EmptyListOf(a, epoch) == found && EmptyCountOf(a, epoch) == |found|
  {}

  /** After a reset no recorded epoch has a count, so recalculation goes through all of them. */
  lemma AllRecordedDone(a: Archive, done: set<uint32>)
    requires MayRecalculate(Reset(a), done)
    ensures done == RecordedEpochs(a)
  {
    assert RecordedEpochs(Reset(a)) == RecordedEpochs(a);
    assert forall d :: d in RecordedEpochs(a) ==> d !in Reset(a).emptyCount;
  }

  lemma ExactMeans(a: Archive, epoch: uint32, expected: seq<uint32>)
    requires Calculate(a, epoch) == Some(expected)
    ensures CacheExact(a, epoch) <==> EmptyListOf(a, epoch) == expected && EmptyCountOf(a, epoch) == |expected|
  {}

  // ---------- when a list is stored ----------

  /** Some start of the program recomputed the epoch. */
  predicate Recomputed(run: seq<Action>, epoch: uint32)
  {
    exists i :: 0 <= i < |run| && run[i].Start? && epoch in run[i].done
  }

  lemma RecomputedSnoc(run: seq<Action>, epoch: uint32)
    requires run != []
    ensures Recomputed(run, epoch) <==>
            Recomputed(run[..|run| - 1], epoch) || (run[|run| - 1].Start? && epoch in run[|run| - 1].done)
  {
    var before := run[..|run| - 1];
    if Recomputed(before, epoch) {
      var i :| 0 <= i < |before| && before[i].Start? && epoch in before[i].done;
      assert run[i] == before[i];
    }
    if Recomputed(run, epoch) {
      var i :| 0 <= i < |run| && run[i].Start? && epoch in run[i].done;
      assert i < |before| ==> before[i] == run[i];
    }
  }

  /** One action on the list of an epoch. */
  ghost predicate ListWritten(a: Archive, a': Archive, l: Log, l': Log, recomputed: bool, epoch: uint32)
  {
    epoch in a'.emptyList <==> epoch in a.emptyList || recomputed || EmptiesOf(l', epoch) != EmptiesOf(l, epoch)
  }

  lemma ListAfterStart(k: QuorumRecords.Codec, a: Archive, l: Log, reset: bool, done: set<uint32>, epoch: uint32)
    requires ArchiveOk(k, a, l) && CacheFollows(a, l) && MayRecalculate(BeforeRecalculation(a, reset), done)
    ensures ListWritten(a, Recalculate(BeforeRecalculation(a, reset), done), l, l, epoch in done, epoch)
  {
    assert EmptyListOf(a, epoch) == EmptiesOf(l, epoch);
    CalculateIsLog(k, a, l, epoch);
    EmptiesFewer(k, a, l, epoch);
    StartedEpoch(a, reset, done, epoch, EmptiesOf(l, epoch));
  }

  lemma ListAfterEntry(a: Archive, a': Archive, l: Log, e: Entry, epoch: uint32)
    requires CacheWrites(a, e, a') && ListUsable(a, e.tick.epoch)
    ensures ListWritten(a, a', l, l + [e], false, epoch)
  {
    EmptiesOfSnoc(l, e, epoch);
    if IsEmpty(e.data) {
      StoredEmpty(a, e.tick.epoch, e.tick.tick);
    }
  }

  lemma WholePassCaches(k: QuorumRecords.Codec, a: Archive, l: Log, r: Report, n: nat)
    requires ArchiveOk(k, a, l) && ReportOk(a, r) && Recorded(a, r) && n >= ALL
    ensures CacheWrites(a, EntryOf(a, r), Process(k, a, r, n)) && NewEntries(k, a, Pass(r, n)) == [EntryOf(a, r)]
    ensures ListUsable(a, EntryOf(a, r).tick.epoch)
  {
    WholePass(k, a, l, r, n);
  }

  lemma ListAfterPass(k: QuorumRecords.Codec, a: Archive, l: Log, r: Report, n: nat, epoch: uint32)
    requires ArchiveOk(k, a, l) && ReportOk(a, r) && n >= ALL
    ensures ListWritten(a, Act(k, a, Pass(r, n)), l, l + NewEntries(k, a, Pass(r, n)), false, epoch)
  {
    if Recorded(a, r) {
      WholePassCaches(k, a, l, r, n);
      ListAfterEntry(a, Process(k, a, r, n), l, EntryOf(a, r), epoch);
    } else {
      IdlePass(k, a, l, r, n);
    }
  }

  lemma IdlePass(k: QuorumRecords.Codec, a: Archive, l: Log, r: Report, n: nat)
    requires !Recorded(a, r)
    ensures Process(k, a, r, n) == a && l + NewEntries(k, a, Pass(r, n)) == l
  {}

  lemma ListAfterAct(k: QuorumRecords.Codec, a: Archive, l: Log, x: Action, epoch: uint32)
    requires ArchiveOk(k, a, l) && CacheFollows(a, l) && ActionOk(a, x) && (x.Pass? ==> x.writes >= ALL)
    ensures ListWritten(a, Act(k, a, x), l, l + NewEntries(k, a, x), x.Start? && epoch in x.done, epoch)
  {
    if x.Pass? {
      ListAfterPass(k, a, l, x.report, x.writes, epoch);
    } else {
      StartMeans(k, a, l, x);
      ListAfterStart(k, a, l, x.reset, x.done, epoch);
    }
  }

  /** A list of empty ticks is stored for an epoch exactly if an empty tick was recorded in it or a start
      of the program recomputed it. */
  lemma {:induction false} ListStoredIff(k: QuorumRecords.Codec, run: seq<Action>, epoch: uint32)
    requires ActionsOk(k, run) && Whole(run)
    ensures var a := FinalArchive(k, run);
            && (epoch in a.emptyList <==> EmptiesOf(LogOf(k, run), epoch) != [] || Recomputed(run, epoch))
            && (epoch in a.emptyList ==> a.emptyList[epoch] == EmptiesOf(LogOf(k, run), epoch))
  {
    RunKeepsCache(k, run);
    assert EmptyListOf(FinalArchive(k, run), epoch) == EmptiesOf(LogOf(k, run), epoch);
    if run != [] {
      var before := run[..|run| - 1];
      WholePrefix(run);
      ListStoredIff(k, before, epoch);
      WholeRunKeepsArchive(k, before);
      RunKeepsCache(k, before);
      ListAfterAct(k, FinalArchive(k, before), LogOf(k, before), run[|run| - 1], epoch);
      RecomputedSnoc(run, epoch);
      EmptiesGrow(LogOf(k, before), NewEntries(k, FinalArchive(k, before), run[|run| - 1]), epoch);
    }
  }

  lemma EmptiesGrow(l: Log, more: Log, epoch: int)
    requires |more| <= 1
    ensures |EmptiesOf(l, epoch)| <= |EmptiesOf(l + more, epoch)|
    ensures |EmptiesOf(l, epoch)| == |EmptiesOf(l + more, epoch)| ==> EmptiesOf(l, epoch) == EmptiesOf(l + more, epoch)
  {
    if more == [] {
      assert l + more == l;
    } else {
      assert more == [more[0]];
      EmptiesOfSnoc(l, more[0], epoch);
    }
  }

  // ---------- runs, action by action ----------

  lemma RunSnoc(k: QuorumRecords.Codec, run: seq<Action>, x: Action)
    ensures FinalArchive(k, run + [x]) == Act(k, FinalArchive(k, run), x)
    ensures ActionsOk(k, run + [x]) <==> ActionsOk(k, run) && ActionOk(FinalArchive(k, run), x)
    ensures LogOf(k, run + [x]) == LogOf(k, run) + NewEntries(k, FinalArchive(k, run), x)
  {
    assert (run + [x])[..|run|] == run;
  }

  /** Two more actions, of which the second one records a tick. */
  lemma TwoActions(k: QuorumRecords.Codec, run: seq<Action>, x: Action, y: Action, a1: Archive, e: Entry)
    requires ActionsOk(k, run) && ActionOk(FinalArchive(k, run), x) && Act(k, FinalArchive(k, run), x) == a1
    requires NewEntries(k, FinalArchive(k, run), x) == [] && ActionOk(a1, y) && NewEntries(k, a1, y) == [e]
    ensures FinalArchive(k, run + [x] + [y]) == Act(k, a1, y)
    ensures ActionsOk(k, run + [x] + [y]) && LogOf(k, run + [x] + [y]) == LogOf(k, run) + [e]
  {
    IdleAction(k, run, x);
    RunSnoc(k, run + [x], y);
  }

  lemma IdleAction(k: QuorumRecords.Codec, run: seq<Action>, x: Action)
    requires ActionsOk(k, run) && ActionOk(FinalArchive(k, run), x) && NewEntries(k, FinalArchive(k, run), x) == []
    ensures FinalArchive(k, run + [x]) == Act(k, FinalArchive(k, run), x)
    ensures ActionsOk(k, run + [x]) && LogOf(k, run + [x]) == LogOf(k, run)
  {
    RunSnoc(k, run, x);
    assert LogOf(k, run) + [] == LogOf(k, run);
  }

  // ---------- the stored form of a list ----------

  function EncodeTicks(ts: seq<uint32>): (b: bytes)
    ensures |b| == 4 * |ts|
  {
    if ts == [] then [] else EncodeTicks(ts[..|ts| - 1]) + LittleEndian(ts[|ts| - 1], 4)
  }

  /** Reads a stored list back; a length that is not a multiple of four is reported as corrupted. */
  method DecodeTicks(value: bytes) returns (r: Option<seq<uint32>>)
    ensures r.None? <==> |value| % 4 != 0
    ensures forall ts :: EncodeTicks(ts) == value ==> r == Some(ts)
  {
    if |value| % 4 != 0 {
      return None;
    }
    var ticks: seq<uint32> := [];
    for i := 0 to |value| / 4
      invariant |ticks| == i
      invariant forall ts :: EncodeTicks(ts) == value ==> ticks == ts[..i]
    {
      Pow256Values();
      FromLittleEndianRange(value[4 * i..4 * i + 4]);
      var t: uint32 := FromLittleEndian(value[4 * i..4 * i + 4]);
      forall ts | EncodeTicks(ts) == value ensures ticks + [t] == ts[..i + 1] {
        EncodedAt(ts, i);
        LittleEndian32RoundTrip(ts[i]);
      }
      ticks := ticks + [t];
    }
    forall ts | EncodeTicks(ts) == value ensures ticks == ts {
      assert ts[..|ts|] == ts;
    }
    return Some(ticks);
  }

  lemma {:induction false} EncodedAt(ts: seq<uint32>, i: nat)
    requires i < |ts|
    ensures EncodeTicks(ts)[4 * i..4 * i + 4] == LittleEndian(ts[i], 4)
  {
    var init := ts[..|ts| - 1];
    if i < |init| {
      EncodedAt(init, i);
      assert EncodeTicks(ts)[4 * i..4 * i + 4] == EncodeTicks(init)[4 * i..4 * i + 4];
    }
  }
}
