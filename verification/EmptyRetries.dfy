/** Retrying a tick does not undo what the first attempt wrote: exactly when the empty-tick caches are right
    after passes that stopped anywhere, any number of times. */
module EmptyRetries {
  import opened Bytes
  import opened Wrappers
  import opened Progress
  import opened QuorumRecords
  import opened Archive
  import opened ArchiveRuns
  import opened EmptyTicks

  /** The number of writes after which a pass has counted an empty tick. */
  const COUNTED: nat := 7

  /** A pass that stops after some number of writes, and the retry. */
  function WithRetry(run: seq<Action>, r: Report, n: nat): (run': seq<Action>)
  {
    run + [Pass(r, n)] + [Pass(r, ALL)]
  }

  /** The list and the count of an epoch. */
  ghost predicate Reads(a: Archive, epoch: uint32, list: seq<uint32>, count: nat)
  {
    EmptyListOf(a, epoch) == list && EmptyCountOf(a, epoch) == count
  }

  /** The list and the count of an epoch, where nothing counted means nothing listed. */
  ghost predicate Sound(a: Archive, epoch: uint32, list: seq<uint32>, count: nat)
  {
    Reads(a, epoch, list, count) && count < MAX_UINT32 && (count == 0 ==> list == [])
  }

  /** What a pass over a tick leaves in the tick's epoch if it stops after `n` writes. */
  ghost predicate Leaves(a: Archive, e: Entry, n: nat, list: seq<uint32>, count: nat)
  {
    Reads(a, e.tick.epoch, if IsEmpty(e.data) && n > COUNTED then list + [e.tick.tick] else list,
          if IsEmpty(e.data) && n >= COUNTED then count + 1 else count)
  }

  lemma SameReads(a: Archive, b: Archive, epoch: uint32, list: seq<uint32>, count: nat)
    requires Reads(a, epoch, list, count) && b.emptyCount == a.emptyCount && b.emptyList == a.emptyList
    ensures Reads(b, epoch, list, count)
  {}

  lemma EmptyCutReads(a: Archive, epoch: uint32, n: nat, list: seq<uint32>, count: nat)
    requires Sound(a, epoch, list, count)
    ensures Reads(EmptyCut(a, epoch, n), epoch, list, if n >= 2 then count + 1 else count)
  {
    InitReads(a, epoch, list, count);
    CountReads(InitEmpty(a, epoch), epoch, list, count);
  }

  lemma InitReads(a: Archive, epoch: uint32, list: seq<uint32>, count: nat)
    requires Sound(a, epoch, list, count)
    ensures Sound(InitEmpty(a, epoch), epoch, list, count)
  {}

  lemma CountReads(a: Archive, epoch: uint32, list: seq<uint32>, count: nat)
    requires Reads(a, epoch, list, count) && count < MAX_UINT32
    ensures Reads(CountEmpty(a, epoch), epoch, list, count + 1)
  {}

  lemma EmptyCutElsewhere(a: Archive, epoch: uint32, n: nat, d: uint32, list: seq<uint32>, count: nat)
    requires Reads(a, d, list, count) && d != epoch
    ensures Reads(EmptyCut(a, epoch, n), d, list, count)
  {
    InitElsewhere(a, epoch, d, list, count);
    CountElsewhere(InitEmpty(a, epoch), epoch, d, list, count);
  }

  lemma InitElsewhere(a: Archive, epoch: uint32, d: uint32, list: seq<uint32>, count: nat)
    requires Reads(a, d, list, count) && d != epoch
    ensures Reads(InitEmpty(a, epoch), d, list, count)
  {}

  lemma CountElsewhere(a: Archive, epoch: uint32, d: uint32, list: seq<uint32>, count: nat)
    requires Reads(a, d, list, count) && d != epoch
    ensures Reads(CountEmpty(a, epoch), d, list, count)
  {}

  lemma RecordsCutReads(k: Codec, a: Archive, tick: uint32, v: Validated, n: nat, epoch: uint32, list: seq<uint32>,
                        count: nat)
    requires Reads(a, epoch, list, count)
    ensures Reads(RecordsCut(k, a, tick, v, n), epoch, list, count)
    ensures Reads(StoreRecords(k, a, tick, v), epoch, list, count) && StoreRecords(k, a, tick, v).chain == a.chain
  {
    RecordsCutAway(k, a, tick, v, n);
    RecordsAreCut(k, a, tick, v);
    SameReads(a, RecordsCut(k, a, tick, v, n), epoch, list, count);
    SameReads(a, StoreRecords(k, a, tick, v), epoch, list, count);
  }

  lemma StoreCutReads(k: Codec, a: Archive, initialTick: uint32, tick: uint32, v: Validated, n: nat, d: uint32,
                      list: seq<uint32>, count: nat)
    requires Sound(a, d, list, count)
    requires PrevChainDigest(a, initialTick, tick).Some? && (n < 5 || IsEmpty(v.data))
    ensures Reads(StoreCut(k, a, initialTick, tick, v, n), d, list,
                  if d == v.firstEpoch && n >= COUNTED then count + 1 else count)
  {
    RecordsCutReads(k, a, tick, v, n, d, list, count);
    if n > 4 {
      var a1 := StoreRecords(k, a, tick, v);
      LookupIgnoresRecords(a, a1, initialTick, tick);
      var a2 := StoreChain(k, a1, tick, v.votes[0], PrevChainDigest(a1, initialTick, tick).value);
      SameReads(a1, a2, d, list, count);
      if d == v.firstEpoch {
        EmptyCutReads(a2, d, n - 5, list, count);
      } else {
        EmptyCutElsewhere(a2, v.firstEpoch, n - 5, d, list, count);
      }
    }
  }

  /** What any pass over a tick leaves in the tick's epoch, and in the others. */
  lemma PassLeaves(k: Codec, a: Archive, l: Log, r: Report, n: nat, d: uint32, list: seq<uint32>, count: nat)
    requires BasicOk(k, a, l) && ReportOk(a, r) && Recorded(a, r) && Sound(a, d, list, count)
    ensures d == EntryOf(a, r).tick.epoch ==> Leaves(Process(k, a, r, n), EntryOf(a, r), n, list, count)
    ensures d != EntryOf(a, r).tick.epoch ==> Reads(Process(k, a, r, n), d, list, count)
  {
    var e := EntryOf(a, r);
    if n < StoreSize(r.outcome.value) {
      ChainLookupSucceeds(k, a, l, r);
      StoreCutReads(k, a, r.info.initialTick, e.tick.tick, r.outcome.value, n, d, list, count);
    } else {
      ProcessWrites(k, a, l, r, n);
      AllWritten(a, Process(k, a, r, n), e, n, d, list, count);
    }
  }

  lemma AllWritten(a: Archive, a1: Archive, e: Entry, n: nat, d: uint32, list: seq<uint32>, count: nat)
    requires CacheWrites(a, e, a1) && Sound(a, d, list, count) && (IsEmpty(e.data) ==> n > COUNTED)
    ensures d == e.tick.epoch ==> Leaves(a1, e, n, list, count)
    ensures d != e.tick.epoch ==> Reads(a1, d, list, count)
  {
    if IsEmpty(e.data) {
      StoredEmpty(a, e.tick.epoch, e.tick.tick);
    }
  }

  /** The state between the two passes: nothing is marked, and the caches are as said. */
  lemma Stopped(k: Codec, a: Archive, l: Log, r: Report, n: nat, list: seq<uint32>)
    requires ArchiveOk(k, a, l) && ReportOk(a, r) && Recorded(a, r) && n <= StoreSize(r.outcome.value)
    requires Sound(a, EntryOf(a, r).tick.epoch, list, |list|)
    ensures var a1 := Process(k, a, r, n);
            && ArchiveOk(k, a1, l) && a1.progress == a.progress && !Completes(k, a, r, n)
            && Leaves(a1, EntryOf(a, r), n, list, |list|)
  {
    NothingMarked(k, a, l, r, n);
    ShortPassKeepsBasic(k, a, l, r, n);
    SameProgressOk(a, Process(k, a, r, n), l);
    PassLeaves(k, a, l, r, n, EntryOf(a, r).tick.epoch, list, |list|);
  }

  lemma NothingMarked(k: Codec, a: Archive, l: Log, r: Report, n: nat)
    requires BasicOk(k, a, l) && ReportOk(a, r) && Recorded(a, r) && n <= StoreSize(r.outcome.value)
    ensures Process(k, a, r, n).progress == a.progress && !Completes(k, a, r, n)
  {
    if n < StoreSize(r.outcome.value) {
      ProgressOfCut(k, a, r, n);
    } else {
      ProcessWrites(k, a, l, r, n);
      NothingWritten(a.progress, TicksIn(l), r.info);
    }
  }

  // ---------- the retry ----------

  lemma SameReport(a: Archive, b: Archive, r: Report)
    requires b.progress == a.progress && ReportOk(a, r) && Recorded(a, r)
    ensures ReportOk(b, r) && Recorded(b, r) && EntryOf(b, r) == EntryOf(a, r)
  {}

  lemma RetryRecords(k: Codec, a: Archive, l: Log, r: Report)
    requires ArchiveOk(k, a, l) && ReportOk(a, r) && Recorded(a, r)
    ensures var a2, e := Process(k, a, r, ALL), EntryOf(a, r);
            && CacheWrites(a, e, a2) && Completes(k, a, r, ALL)
            && Calculate(a2, e.tick.epoch) == Some(EmptiesOf(l + [e], e.tick.epoch))
  {
    WholePass(k, a, l, r, ALL);
    PassKeepsBasic(k, a, l, r, ALL);
    ProgressAdvances(a, Process(k, a, r, ALL), l, r);
    CalculateIsLog(k, Process(k, a, r, ALL), l + [EntryOf(a, r)], EntryOf(a, r).tick.epoch);
  }

  lemma RetryReads(a: Archive, a': Archive, e: Entry, list: seq<uint32>, count: nat)
    requires CacheWrites(a, e, a') && IsEmpty(e.data) && Reads(a, e.tick.epoch, list, count)
    requires count < MAX_UINT32 && (count == 0 ==> list == [])
    ensures Reads(a', e.tick.epoch, list + [e.tick.tick], count + 1)
  {
    StoredEmpty(a, e.tick.epoch, e.tick.tick);
  }

  /** What the two passes leave together. */
  lemma RetriedCaches(a1: Archive, a2: Archive, e: Entry, n: nat, list: seq<uint32>)
    requires Leaves(a1, e, n, list, |list|) && CacheWrites(a1, e, a2) && |list| + 1 < MAX_UINT32
    ensures !IsEmpty(e.data) ==> Reads(a2, e.tick.epoch, list, |list|)
    ensures IsEmpty(e.data) ==>
              var t := e.tick.tick;
              Reads(a2, e.tick.epoch, list + (if n > COUNTED then [t] + [t] else [t]),
                    |list| + if n >= COUNTED then 2 else 1)
  {
    if IsEmpty(e.data) {
      var t := e.tick.tick;
      var once := if n > COUNTED then list + [t] else list;
      RetryReads(a1, a2, e, once, if n >= COUNTED then |list| + 1 else |list|);
      assert list + ([t] + [t]) == list + [t] + [t];
    } else {
      SameReads(a1, a2, e.tick.epoch, list, |list|);
    }
  }

  lemma ExactOnceUncounted(a2: Archive, l: Log, e: Entry, n: nat)
    requires Calculate(a2, e.tick.epoch) == Some(EmptiesOf(l + [e], e.tick.epoch))
    requires var list, t := EmptiesOf(l, e.tick.epoch), e.tick.tick;
             if !IsEmpty(e.data) then Reads(a2, e.tick.epoch, list, |list|)
             else Reads(a2, e.tick.epoch, list + (if n > COUNTED then [t] + [t] else [t]),
                        |list| + if n >= COUNTED then 2 else 1)
    ensures CacheExact(a2, e.tick.epoch) <==> !IsEmpty(e.data) || n < COUNTED
  {
    EmptiesOfSnoc(l, e, e.tick.epoch);
    ExactMeans(a2, e.tick.epoch, EmptiesOf(l + [e], e.tick.epoch));
  }

  lemma EmptiesBeforeEntry(k: Codec, a: Archive, l: Log, r: Report)
    requires ArchiveOk(k, a, l) && ReportOk(a, r) && Recorded(a, r)
    ensures |EmptiesOf(l, EntryOf(a, r).tick.epoch)| + 1 < MAX_UINT32
  {
    LogAscends(a, l);
    NextEntry(a, l, r);
    EmptiesBounded(l, EntryOf(a, r).tick.epoch, EntryOf(a, r).tick.tick - 1);
  }

  /** Both passes, from a state whose caches are right. */
  lemma RetryInState(k: Codec, a: Archive, l: Log, r: Report, n: nat)
    requires ArchiveOk(k, a, l) && CacheFollows(a, l) && ReportOk(a, r) && Recorded(a, r)
    requires n <= StoreSize(r.outcome.value)
    ensures var a1, e := Process(k, a, r, n), EntryOf(a, r);
            var a2, list := Process(k, a1, r, ALL), EmptiesOf(l, e.tick.epoch);
            && !Completes(k, a, r, n) && ReportOk(a1, r) && Completes(k, a1, r, ALL) && EntryOf(a1, r) == e
            && (CacheExact(a2, e.tick.epoch) <==> !IsEmpty(e.data) || n < COUNTED)
            && (IsEmpty(e.data) && n > COUNTED ==>
                  Reads(a2, e.tick.epoch, list + ([e.tick.tick] + [e.tick.tick]), |list| + 2))
  {
    var a1, e := Process(k, a, r, n), EntryOf(a, r);
    var list := EmptiesOf(l, e.tick.epoch);
    EmptiesBeforeEntry(k, a, l, r);
    assert Sound(a, e.tick.epoch, list, |list|);
    Stopped(k, a, l, r, n, list);
    SameReport(a, a1, r);
    RetryRecords(k, a1, l, r);
    RetriedCaches(a1, Process(k, a1, r, ALL), e, n, list);
    ExactOnceUncounted(Process(k, a1, r, ALL), l, e, n);
  }

  /** The bookkeeping is not idempotent. After any run of whole passes, a pass that stops anywhere before
      its progress writes and is retried records its tick once, and leaves the epoch's caches exact if and
      only if the tick is not empty or the first pass stopped before it counted the tick. */
  lemma RetryExactIff(k: Codec, run: seq<Action>, r: Report, n: nat)
    requires ActionsOk(k, run) && Whole(run) && ReportOk(FinalArchive(k, run), r) && Recorded(FinalArchive(k, run), r)
    requires n <= StoreSize(r.outcome.value)
    ensures var run', e := WithRetry(run, r, n), EntryOf(FinalArchive(k, run), r);
            && ActionsOk(k, run') && LogOf(k, run') == LogOf(k, run) + [e]
            && (CacheExact(FinalArchive(k, run'), e.tick.epoch) <==> !IsEmpty(e.data) || n < COUNTED)
            && (IsEmpty(e.data) && n > COUNTED ==>
                  var list := EmptiesOf(LogOf(k, run), e.tick.epoch);
                  Reads(FinalArchive(k, run'), e.tick.epoch, list + ([e.tick.tick] + [e.tick.tick]), |list| + 2))
  {
    var a, l := FinalArchive(k, run), LogOf(k, run);
    var x, y := Pass(r, n), Pass(r, ALL);
    WholeRunKeepsArchive(k, run);
    RunKeepsCache(k, run);
    RetryInState(k, a, l, r, n);
    TwoActions(k, run, x, y, Act(k, a, x), EntryOf(a, r));
  }

  /** In particular, an empty tick whose records were all written before the pass stopped is counted and
      listed twice. */
  lemma CountedTwice(k: Codec, run: seq<Action>, r: Report) returns (run': seq<Action>)
    requires ActionsOk(k, run) && Whole(run) && ReportOk(FinalArchive(k, run), r) && Recorded(FinalArchive(k, run), r)
    requires IsEmpty(r.outcome.value.data)
    ensures var e, list := EntryOf(FinalArchive(k, run), r), EmptiesOf(LogOf(k, run), r.outcome.value.firstEpoch);
            && ActionsOk(k, run') && LogOf(k, run') == LogOf(k, run) + [e]
            && Reads(FinalArchive(k, run'), e.tick.epoch, list + ([e.tick.tick] + [e.tick.tick]), |list| + 2)
            && !CacheExact(FinalArchive(k, run'), e.tick.epoch)
  {
    RetryExactIff(k, run, r, StoreSize(r.outcome.value));
    run' := WithRetry(run, r, StoreSize(r.outcome.value));
  }

  // ---------- any number of interruptions ----------

  /** The caches of an epoch are those of its recorded empty ticks. */
  ghost predicate FollowsAt(a: Archive, l: Log, epoch: uint32)
  {
    Reads(a, epoch, EmptiesOf(l, epoch), |EmptiesOf(l, epoch)|)
  }

  /** The pass counts an empty tick of the epoch. */
  predicate Counts(a: Archive, x: Action, epoch: uint32)
  {
    && x.Pass? && Recorded(a, x.report) && Next(a.progress, x.report.info).epoch == epoch
    && IsEmpty(x.report.outcome.value.data) && x.writes >= COUNTED
  }

  /** The pass counts an empty tick of the epoch, but does not record it. */
  predicate CountsInVain(k: Codec, a: Archive, x: Action, epoch: uint32)
  {
    Counts(a, x, epoch) && !Completes(k, a, x.report, x.writes)
  }

  /** No pass of the tail counts in vain. */
  ghost predicate NoneInVain(k: Codec, before: seq<Action>, tail: seq<Action>, epoch: uint32)
  {
    tail == []
    || (var init, x := tail[..|tail| - 1], tail[|tail| - 1];
        NoneInVain(k, before, init, epoch) && !CountsInVain(k, FinalArchive(k, before + init), x, epoch))
  }

  ghost function InVain(k: Codec, before: seq<Action>, tail: seq<Action>, epoch: uint32): (c: nat)
  {
    if tail == [] then 0
    else
      var init, x := tail[..|tail| - 1], tail[|tail| - 1];
      InVain(k, before, init, epoch) + if CountsInVain(k, FinalArchive(k, before + init), x, epoch) then 1 else 0
  }

  lemma {:induction false} NoneInVainIff(k: Codec, before: seq<Action>, tail: seq<Action>, epoch: uint32)
    ensures NoneInVain(k, before, tail, epoch) <==> InVain(k, before, tail, epoch) == 0
  {
    if tail != [] {
      NoneInVainIff(k, before, tail[..|tail| - 1], epoch);
    }
  }

  /** The count exceeds the recorded empty ticks by the passes that counted in vain; without any, the list is
      right as well. */
  ghost predicate Exceeds(a: Archive, l: Log, epoch: uint32, c: nat)
  {
    && EmptyCountOf(a, epoch) == |EmptiesOf(l, epoch)| + c
    && (c == 0 ==> EmptyListOf(a, epoch) == EmptiesOf(l, epoch))
    && (EmptyCountOf(a, epoch) == 0 ==> EmptyListOf(a, epoch) == [])
  }

  lemma InVainMeans(k: Codec, a: Archive, r: Report, n: nat, epoch: uint32)
    requires Recorded(a, r)
    ensures var e := EntryOf(a, r);
            && (CountsInVain(k, a, Pass(r, n), epoch)
                <==> epoch == e.tick.epoch && IsEmpty(e.data) && n >= COUNTED && !Completes(k, a, r, n))
            && (Completes(k, a, r, n) && IsEmpty(e.data) ==> n > COUNTED)
  {}

  lemma ExceedsSame(a: Archive, a': Archive, l: Log, l': Log, epoch: uint32, c: nat)
    requires Exceeds(a, l, epoch, c) && Reads(a', epoch, EmptyListOf(a, epoch), EmptyCountOf(a, epoch))
    requires EmptiesOf(l', epoch) == EmptiesOf(l, epoch)
    ensures Exceeds(a', l', epoch, c)
  {}

  lemma ExceedsRecorded(a: Archive, a': Archive, l: Log, l': Log, epoch: uint32, c: nat, t: uint32)
    requires Exceeds(a, l, epoch, c) && Reads(a', epoch, EmptyListOf(a, epoch) + [t], EmptyCountOf(a, epoch) + 1)
    requires EmptiesOf(l', epoch) == EmptiesOf(l, epoch) + [t]
    ensures Exceeds(a', l', epoch, c)
  {}

  lemma ExceedsMore(a: Archive, a': Archive, l: Log, epoch: uint32, c: nat, list: seq<uint32>)
    requires Exceeds(a, l, epoch, c) && Reads(a', epoch, list, EmptyCountOf(a, epoch) + 1)
    ensures Exceeds(a', l, epoch, c + 1)
  {}

  lemma NewEmpties(k: Codec, a: Archive, l: Log, r: Report, n: nat, epoch: uint32)
    requires Recorded(a, r)
    ensures var e := EntryOf(a, r);
            EmptiesOf(l + NewEntries(k, a, Pass(r, n)), epoch)
            == EmptiesOf(l, epoch)
               + if Completes(k, a, r, n) && e.tick.epoch == epoch && IsEmpty(e.data) then [e.tick.tick] else []
  {
    EmptiesOfSnoc(l, EntryOf(a, r), epoch);
    assert l + [] == l;
  }

  /** What a pass leaves in an epoch, in terms of its recorded empty ticks. */
  lemma PassReads(k: Codec, a: Archive, l: Log, r: Report, n: nat, epoch: uint32, c: nat)
    requires BasicOk(k, a, l) && ReportOk(a, r) && Recorded(a, r) && Exceeds(a, l, epoch, c)
    requires EmptyCountOf(a, epoch) < MAX_UINT32
    ensures var e, a', list, count := EntryOf(a, r), Process(k, a, r, n), EmptyListOf(a, epoch), EmptyCountOf(a, epoch);
            && (epoch == e.tick.epoch ==> Leaves(a', e, n, list, count))
            && (epoch != e.tick.epoch ==> Reads(a', epoch, list, count))
  {
    assert Sound(a, epoch, EmptyListOf(a, epoch), EmptyCountOf(a, epoch));
    PassLeaves(k, a, l, r, n, epoch, EmptyListOf(a, epoch), EmptyCountOf(a, epoch));
  }

  /** One more pass. */
  lemma PassExceeds(k: Codec, a: Archive, l: Log, r: Report, n: nat, epoch: uint32, c: nat)
    requires BasicOk(k, a, l) && ReportOk(a, r) && Recorded(a, r) && Exceeds(a, l, epoch, c)
    requires EmptyCountOf(a, epoch) < MAX_UINT32
    ensures var x := Pass(r, n);
            Exceeds(Process(k, a, r, n), l + NewEntries(k, a, x), epoch,
                    c + if CountsInVain(k, a, x, epoch) then 1 else 0)
  {
    PassReads(k, a, l, r, n, epoch, c);
    NewEmpties(k, a, l, r, n, epoch);
    InVainMeans(k, a, r, n, epoch);
    LeftExceeds(a, Process(k, a, r, n), l, l + NewEntries(k, a, Pass(r, n)), EntryOf(a, r), n, Completes(k, a, r, n),
                epoch, c);
  }

  lemma LeftExceeds(a: Archive, a': Archive, l: Log, l': Log, e: Entry, n: nat, done: bool, epoch: uint32, c: nat)
    requires Exceeds(a, l, epoch, c) && (done && IsEmpty(e.data) ==> n > COUNTED)
    requires epoch == e.tick.epoch ==> Leaves(a', e, n, EmptyListOf(a, epoch), EmptyCountOf(a, epoch))
    requires epoch != e.tick.epoch ==> Reads(a', epoch, EmptyListOf(a, epoch), EmptyCountOf(a, epoch))
    requires EmptiesOf(l', epoch)
             == EmptiesOf(l, epoch) + if done && e.tick.epoch == epoch && IsEmpty(e.data) then [e.tick.tick] else []
    ensures Exceeds(a', l', epoch,
                    c + if epoch == e.tick.epoch && IsEmpty(e.data) && n >= COUNTED && !done then 1 else 0)
  {
    assert EmptiesOf(l, epoch) + [] == EmptiesOf(l, epoch);
    if epoch != e.tick.epoch || !IsEmpty(e.data) || n < COUNTED {
      ExceedsSame(a, a', l, l', epoch, c);
    } else if done {
      ExceedsRecorded(a, a', l, l', epoch, c, e.tick.tick);
    } else {
      ExceedsMore(a, a', l, epoch, c, EmptyListOf(a', epoch));
      ExceedsAlike(a', l, l', epoch, c + 1);
    }
  }

  lemma ExceedsAlike(a: Archive, l: Log, l': Log, epoch: uint32, c: nat)
    requires Exceeds(a, l, epoch, c) && EmptiesOf(l', epoch) == EmptiesOf(l, epoch)
    ensures Exceeds(a, l', epoch, c)
  {}

  lemma ActExceeds(k: Codec, a: Archive, l: Log, x: Action, epoch: uint32, c: nat)
    requires BasicOk(k, a, l) && ActionOk(a, x) && x.Pass? && Exceeds(a, l, epoch, c)
    requires EmptyCountOf(a, epoch) < MAX_UINT32
    ensures Exceeds(Act(k, a, x), l + NewEntries(k, a, x), epoch, c + if CountsInVain(k, a, x, epoch) then 1 else 0)
  {
    if Recorded(a, x.report) {
      PassExceeds(k, a, l, x.report, x.writes, epoch, c);
    } else {
      IdlePass(k, a, l, x.report, x.writes);
    }
  }

  lemma SplitLast(before: seq<Action>, tail: seq<Action>)
    requires tail != []
    ensures before + tail == before + tail[..|tail| - 1] + [tail[|tail| - 1]]
  {}

  /** Fewer empty ticks are recorded and counted than there are passes. */
  lemma {:induction false} TailExceeds(k: Codec, before: seq<Action>, tail: seq<Action>, epoch: uint32)
    requires ActionsOk(k, before + tail) && forall i :: 0 <= i < |tail| ==> tail[i].Pass?
    requires FollowsAt(FinalArchive(k, before), LogOf(k, before), epoch)
    requires |EmptiesOf(LogOf(k, before), epoch)| + |tail| <= MAX_UINT32
    ensures var a, l := FinalArchive(k, before + tail), LogOf(k, before + tail);
            && Exceeds(a, l, epoch, InVain(k, before, tail, epoch))
            && EmptyCountOf(a, epoch) <= |EmptiesOf(LogOf(k, before), epoch)| + |tail|
  {
    if tail == [] {
      assert before + tail == before;
    } else {
      var init, x := tail[..|tail| - 1], tail[|tail| - 1];
      SplitLast(before, tail);
      RunSnoc(k, before + init, x);
      TailExceeds(k, before, init, epoch);
      RunKeepsArchive(k, before + init);
      ActExceeds(k, FinalArchive(k, before + init), LogOf(k, before + init), x, epoch, InVain(k, before, init, epoch));
      GrowsByOne(k, FinalArchive(k, before + init), LogOf(k, before + init), x, epoch, InVain(k, before, init, epoch));
    }
  }

  lemma GrowsByOne(k: Codec, a: Archive, l: Log, x: Action, epoch: uint32, c: nat)
    requires x.Pass? && Exceeds(a, l, epoch, c)
    requires Exceeds(Act(k, a, x), l + NewEntries(k, a, x), epoch, c + if CountsInVain(k, a, x, epoch) then 1 else 0)
    ensures EmptyCountOf(Act(k, a, x), epoch) <= EmptyCountOf(a, epoch) + 1
  {
    assert l + [] == l;
    if NewEntries(k, a, x) != [] {
      EmptiesOfSnoc(l, EntryOf(a, x.report), epoch);
    }
  }

  /** From any run that leaves the caches of an epoch right, and after any further passes that stop anywhere
      any number of times, the caches of the epoch are right if and only if no pass that did not record its
      tick had counted it as an empty one of the epoch. */
  lemma PassesExactIff(k: Codec, before: seq<Action>, tail: seq<Action>, epoch: uint32)
    requires ActionsOk(k, before + tail) && forall i :: 0 <= i < |tail| ==> tail[i].Pass?
    requires FollowsAt(FinalArchive(k, before), LogOf(k, before), epoch)
    requires |EmptiesOf(LogOf(k, before), epoch)| + |tail| <= MAX_UINT32
    ensures FollowsAt(FinalArchive(k, before + tail), LogOf(k, before + tail), epoch)
            <==> NoneInVain(k, before, tail, epoch)
  {
    TailExceeds(k, before, tail, epoch);
    NoneInVainIff(k, before, tail, epoch);
  }

  // ---------- what a restart repairs ----------

  /** Every pass is whole or stops before its progress writes. */
  predicate Settled(run: seq<Action>)
  {
    forall i :: 0 <= i < |run| ==> SettledPass(run[i])
  }

  predicate SettledPass(x: Action)
  {
    x.Pass? && x.report.outcome.Some? ==> x.writes >= ALL || x.writes <= StoreSize(x.report.outcome.value)
  }

  lemma StoppedKeepsProgress(k: Codec, a: Archive, l: Log, r: Report, n: nat)
    requires ArchiveOk(k, a, l) && ReportOk(a, r) && Recorded(a, r) && n <= StoreSize(r.outcome.value)
    ensures ProgressOk(Process(k, a, r, n), l + NewEntries(k, a, Pass(r, n)))
  {
    NothingMarked(k, a, l, r, n);
    NothingNew(k, a, l, r, n);
    SameProgressOk(a, Process(k, a, r, n), l);
  }

  lemma NothingNew(k: Codec, a: Archive, l: Log, r: Report, n: nat)
    requires !Completes(k, a, r, n)
    ensures l + NewEntries(k, a, Pass(r, n)) == l
  {}

  lemma SettledActKeepsProgress(k: Codec, a: Archive, l: Log, x: Action)
    requires ArchiveOk(k, a, l) && ActionOk(a, x) && SettledPass(x)
    ensures ProgressOk(Act(k, a, x), l + NewEntries(k, a, x))
  {
    if x.Pass? && Recorded(a, x.report) && x.writes < ALL {
      StoppedKeepsProgress(k, a, l, x.report, x.writes);
    } else if x.Pass? && !Recorded(a, x.report) {
      IdleActKeepsProgress(k, a, l, x);
    } else {
      WholeActKeepsProgress(k, a, l, x);
    }
  }

  lemma SettledPrefix(run: seq<Action>)
    requires Settled(run) && run != []
    ensures Settled(run[..|run| - 1]) && SettledPass(run[|run| - 1])
  {}

  /** Such runs keep the progress tables exact, whatever they do to the caches. */
  lemma {:induction false} SettledRunKeepsArchive(k: Codec, run: seq<Action>)
    requires ActionsOk(k, run) && Settled(run)
    ensures ArchiveOk(k, FinalArchive(k, run), LogOf(k, run))
  {
    RunKeepsArchive(k, run);
    if run == [] {
      NothingIsExact();
    } else {
      var before := run[..|run| - 1];
      SettledPrefix(run);
      SettledRunKeepsArchive(k, before);
      SettledActKeepsProgress(k, FinalArchive(k, before), LogOf(k, before), run[|run| - 1]);
    }
  }

  /** A start with a reset repairs what such passes have counted in vain. */
  lemma RestartRepairs(k: Codec, run: seq<Action>, done: set<uint32>, epoch: uint32)
    requires ActionsOk(k, run) && Settled(run)
    requires ActionOk(FinalArchive(k, run), Start(true, done)) && epoch in RecordedEpochs(FinalArchive(k, run))
    ensures var run' := run + [Start(true, done)];
            && ActionsOk(k, run') && LogOf(k, run') == LogOf(k, run)
            && FollowsAt(FinalArchive(k, run'), LogOf(k, run'), epoch) && CacheExact(FinalArchive(k, run'), epoch)
  {
    var a, l := FinalArchive(k, run), LogOf(k, run);
    SettledRunKeepsArchive(k, run);
    EmptiesFewer(k, a, l, epoch);
    CalculateIsLog(k, a, l, epoch);
    RestoredEpoch(a, a, done, epoch, EmptiesOf(l, epoch));
    IdleAction(k, run, Start(true, done));
  }
}
