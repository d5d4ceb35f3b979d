/** What every run of the archive keeps, however its passes are interrupted and the program restarted:
    complete records of all processed ticks, and chain digests that fold the recorded votes. */
module ArchiveRuns {
  import opened Bytes
  import opened Wrappers
  import opened Progress
  import opened ProgressRuns
  import opened RunInvariant
  import opened CleanRuns
  import opened Votes
  import opened QuorumRecords
  import opened Archive

  /** Without interruptions the progress tables are exact. */
  ghost predicate ProgressOk(a: Archive, l: Log)
  {
    Inv(a.progress, TicksIn(l), NO_LOSS) && Exact(a.progress, TicksIn(l))
  }

  /** The records of one processed tick. */
  ghost predicate RecordOk(k: Codec, a: Archive, e: Entry)
  {
    var t := e.tick.tick;
    && t in a.quorum && a.quorum[t] == StoredOf(k, e.votes)
    && t in a.tickData && a.tickData[t] == (if e.data.None? then EMPTY_MESSAGE else e.data.value)
    && e.votes[0].epoch == e.tick.epoch
    && e.tick.epoch in a.computors
  }

  ghost predicate RecordsOk(k: Codec, a: Archive, l: Log)
  {
    forall i {:trigger RecordOk(k, a, l[i])} :: 0 <= i < |l| ==> RecordOk(k, a, l[i])
  }

  /** The chain digest of the i-th recorded tick: its vote content folded onto the previous digest, or
      onto zero where the chain starts anew. */
  function DigestAt(k: Codec, l: Log, i: nat): (d: Digest)
    requires i < |l|
  {
    LinkDigest(k, l[i].votes[0], if i == 0 || l[i].reset then ZeroDigest() else DigestAt(k, l, i - 1))
  }

  /** A link continues the previous tick's digest unless the chain starts anew there. */
  ghost predicate LinkOk(l: Log, i: nat)
    requires i < |l|
  {
    l[i].reset || (i > 0 && l[i - 1].tick.tick + 1 == l[i].tick.tick)
  }

  ghost predicate LinkStored(k: Codec, a: Archive, l: Log, i: nat)
    requires i < |l|
  {
    LinkOk(l, i) && l[i].tick.tick in a.chain && a.chain[l[i].tick.tick] == DigestAt(k, l, i)
  }

  ghost predicate ChainOk(k: Codec, a: Archive, l: Log)
  {
    forall i {:trigger LinkStored(k, a, l, i)} :: 0 <= i < |l| ==> LinkStored(k, a, l, i)
  }

  /** A stored count comes with a list, so appending to the list never fails. */
  ghost predicate Usable(a: Archive)
  {
    forall e: uint32 :: ListUsable(a, e)
  }

  ghost predicate BasicOk(k: Codec, a: Archive, l: Log)
  {
    MarkerOk(a.progress, TicksIn(l)) && RecordsOk(k, a, l) && ChainOk(k, a, l) && Usable(a)
  }

  // ---------- one pass ----------

  /** A report that gets recorded appends one tick above all recorded ones, restarting the chain exactly
      if the node's epoch starts there, and otherwise following the last tick directly. */
  lemma NextEntry(a: Archive, l: Log, r: Report)
    requires MarkerOk(a.progress, TicksIn(l)) && ReportOk(a, r) && Recorded(a, r)
    ensures var e := EntryOf(a, r);
            && 1 <= e.tick.tick < MAX_UINT32
            && (forall i :: 0 <= i < |l| ==> l[i].tick.tick < e.tick.tick && l[i].tick.epoch <= e.tick.epoch)
            && (e.reset || (l != [] && e.tick.tick == l[|l| - 1].tick.tick + 1
                            && e.tick.epoch == l[|l| - 1].tick.epoch))
            && TicksIn(l + [e]) == TicksIn(l) + [e.tick] && HistoryOk(TicksIn(l) + [e.tick])
  {
    HistoryGrows(a.progress, TicksIn(l), r.info);
    NextAfter(a.progress, TicksIn(l), r.info);
    EntryAbove(l, EntryOf(a, r));
  }

  lemma NextAfter(s: State, h: History, info: TickInfo)
    requires MarkerOk(s, h) && WellFormed(s, info) && Due(s, info) && info.initialTick >= 1
    ensures var next := Next(s, info);
            next.tick == info.initialTick
            || (h != [] && next.tick == h[|h| - 1].tick + 1 && next.epoch == h[|h| - 1].epoch)
  {
    HistoryGrows(s, h, info);
    NextFollows(s, info);
  }

  lemma EntryAbove(l: Log, e: Entry)
    requires HistoryOk(TicksIn(l) + [e.tick])
    ensures 1 <= e.tick.tick < MAX_UINT32
    ensures forall i :: 0 <= i < |l| ==> l[i].tick.tick < e.tick.tick && l[i].tick.epoch <= e.tick.epoch
    ensures TicksIn(l + [e]) == TicksIn(l) + [e.tick]
  {
    var h' := TicksIn(l) + [e.tick];
    assert h'[|l|] == e.tick;
    forall i | 0 <= i < |l| ensures l[i].tick.tick < e.tick.tick && l[i].tick.epoch <= e.tick.epoch {
      assert h'[i] == l[i].tick;
    }
  }

  /** The digest the next recorded tick continues from. */
  function PrevOf(k: Codec, l: Log, reset: bool): (d: Digest)
  {
    if l == [] || reset then ZeroDigest() else DigestAt(k, l, |l| - 1)
  }

  /** The lookup of the previous chain digest never fails; it yields zero where the chain starts anew
      and the last tick's digest otherwise. */
  lemma ChainLookupSucceeds(k: Codec, a: Archive, l: Log, r: Report)
    requires MarkerOk(a.progress, TicksIn(l)) && ChainOk(k, a, l) && ReportOk(a, r) && Recorded(a, r)
    ensures PrevChainDigest(a, r.info.initialTick, Next(a.progress, r.info).tick)
            == Some(PrevOf(k, l, EntryOf(a, r).reset))
    ensures l == [] ==> EntryOf(a, r).reset
  {
    NextEntry(a, l, r);
    if !EntryOf(a, r).reset {
      assert LinkStored(k, a, l, |l| - 1);
      LinkFound(a, l[|l| - 1].tick.tick, DigestAt(k, l, |l| - 1), r.info.initialTick, EntryOf(a, r).tick.tick);
    }
  }

  lemma LinkFound(a: Archive, last: uint32, d: Digest, initialTick: uint32, tick: uint32)
    requires last in a.chain && a.chain[last] == d && tick == last + 1 && tick != initialTick
    ensures PrevChainDigest(a, initialTick, tick) == Some(d)
  {
    assert Pred(tick) == last;
  }

  /** Without the assumption that epochs start at a positive tick, the lookup fails on the very first
      tick exactly if the node reports the epoch's start as tick zero. */
  lemma FirstLookup(info: TickInfo)
    requires Due(EMPTY, info)
    ensures PrevChainDigest(NOTHING, info.initialTick, Next(EMPTY, info).tick).None? <==> info.initialTick == 0
  {}

  /** What recording a tick changes, table by table. */
  ghost predicate Recording(k: Codec, a: Archive, e: Entry, identities: seq<string>, prev: Digest, a': Archive)
  {
    && TableWrites(k, a, e, identities, a')
    && a'.lastQuorum == a.lastQuorum[e.tick.epoch :=
         LastQuorumOf(a, e.tick.epoch)[IntervalIndex(a.progress, e.tick.epoch) := FullOf(k, e.votes)]]
    && a'.chain == a.chain[e.tick.tick := LinkDigest(k, e.votes[0], prev)]
    && CacheWrites(a, e, a')
  }

  ghost predicate TableWrites(k: Codec, a: Archive, e: Entry, identities: seq<string>, a': Archive)
  {
    && a'.quorum == a.quorum[e.tick.tick := StoredOf(k, e.votes)]
    && a'.tickData == a.tickData[e.tick.tick := if e.data.None? then EMPTY_MESSAGE else e.data.value]
    && a'.computors == StoreComputors(a, e.tick.epoch, identities).computors
  }

  ghost predicate CacheWrites(a: Archive, e: Entry, a': Archive)
  {
    && a'.emptyCount == (if IsEmpty(e.data) then StoreEmpty(a, e.tick.epoch, e.tick.tick).emptyCount else a.emptyCount)
    && a'.emptyList == (if IsEmpty(e.data) then StoreEmpty(a, e.tick.epoch, e.tick.tick).emptyList else a.emptyList)
  }

  lemma StoreTickWrites(k: Codec, a: Archive, initialTick: uint32, v: Validated, e: Entry, prev: Digest)
    requires v.votes[0].epoch == v.firstEpoch == e.tick.epoch && e.votes == v.votes && e.data == v.data
    requires PrevChainDigest(a, initialTick, e.tick.tick) == Some(prev) && ListUsable(a, e.tick.epoch)
    ensures var (a', ok) := StoreTick(k, a, initialTick, e.tick.tick, v);
            ok && Recording(k, a, e, v.computors, prev, a') && a'.progress == a.progress
  {
    var t := e.tick.tick;
    var a1 := StoreRecords(k, a, t, v);
    RecordWrites(k, a, v, e);
    LookupIgnoresRecords(a, a1, initialTick, t);
    var a2 := StoreChain(k, a1, t, v.votes[0], prev);
    EmptyIgnoresRecords(a, a2, e.tick.epoch, t);
    FinishWrites(a, a2, v, e);
  }

  /** The last writes of a tick touch nothing but the caches. */
  lemma FinishWrites(a: Archive, a2: Archive, v: Validated, e: Entry)
    requires v.firstEpoch == e.tick.epoch && e.data == v.data && ListUsable(a, e.tick.epoch)
    requires a2.emptyCount == a.emptyCount && a2.emptyList == a.emptyList
    ensures var (a', ok) := FinishTick(a2, e.tick.tick, v);
            ok && CacheWrites(a, e, a') && a' == a2.(emptyCount := a'.emptyCount, emptyList := a'.emptyList)
  {
    assert ListUsable(a2, e.tick.epoch);
    EmptyIgnoresRecords(a, a2, e.tick.epoch, e.tick.tick);
  }

  lemma RecordWrites(k: Codec, a: Archive, v: Validated, e: Entry)
    requires v.votes[0].epoch == v.firstEpoch == e.tick.epoch && e.votes == v.votes && e.data == v.data
    ensures var a1 := StoreRecords(k, a, e.tick.tick, v);
            && a1.quorum == a.quorum[e.tick.tick := StoredOf(k, e.votes)]
            && a1.lastQuorum == a.lastQuorum[e.tick.epoch :=
                 LastQuorumOf(a, e.tick.epoch)[IntervalIndex(a.progress, e.tick.epoch) := FullOf(k, e.votes)]]
            && a1.tickData == a.tickData[e.tick.tick := if e.data.None? then EMPTY_MESSAGE else e.data.value]
            && a1.computors == StoreComputors(a, e.tick.epoch, v.computors).computors
            && a1.chain == a.chain && a1.emptyCount == a.emptyCount && a1.emptyList == a.emptyList
            && a1.progress == a.progress
  {
    var b := StoreComputors(a, v.firstEpoch, v.computors);
    ComputorsAside(a, v.firstEpoch, v.computors);
    QuorumWrites(k, a, b, e.tick.tick, v.votes);
  }

  lemma ComputorsAside(a: Archive, epoch: uint32, identities: seq<string>)
    ensures var b := StoreComputors(a, epoch, identities); b == a.(computors := b.computors)
  {}

  lemma QuorumWrites(k: Codec, a: Archive, b: Archive, tick: uint32, votes: Ballot)
    requires b.lastQuorum == a.lastQuorum && b.progress == a.progress && b.quorum == a.quorum
    ensures var c := StoreQuorum(k, b, tick, votes);
            && c == b.(quorum := a.quorum[tick := StoredOf(k, votes)], lastQuorum := c.lastQuorum)
            && c.lastQuorum == a.lastQuorum[votes[0].epoch as uint32 :=
                 LastQuorumOf(a, votes[0].epoch)[IntervalIndex(a.progress, votes[0].epoch) := FullOf(k, votes)]]
  {}

  lemma LookupIgnoresRecords(a: Archive, b: Archive, initialTick: uint32, tick: uint32)
    requires a.chain == b.chain
    ensures PrevChainDigest(a, initialTick, tick) == PrevChainDigest(b, initialTick, tick)
  {}

  lemma EmptyIgnoresRecords(a: Archive, b: Archive, epoch: uint32, tick: uint32)
    requires a.emptyCount == b.emptyCount && a.emptyList == b.emptyList
    ensures StoreEmpty(a, epoch, tick).emptyCount == StoreEmpty(b, epoch, tick).emptyCount
    ensures StoreEmpty(a, epoch, tick).emptyList == StoreEmpty(b, epoch, tick).emptyList
  {}

  /** A pass that gets through all the writes before the progress writes. */
  lemma ProcessWrites(k: Codec, a: Archive, l: Log, r: Report, n: nat)
    requires BasicOk(k, a, l) && ReportOk(a, r) && Recorded(a, r) && n >= StoreSize(r.outcome.value)
    ensures Recording(k, a, EntryOf(a, r), r.outcome.value.computors, PrevOf(k, l, EntryOf(a, r).reset),
                      Process(k, a, r, n))
    ensures var pass := Attempt(r.info, n - StoreSize(r.outcome.value));
            && Process(k, a, r, n).progress == Play(a.progress, pass)
            && (Completes(k, a, r, n) <==> Marks(a.progress, pass))
  {
    ChainLookupSucceeds(k, a, l, r);
    WritesOnceFound(k, a, r, n, PrevOf(k, l, EntryOf(a, r).reset));
  }

  lemma WritesOnceFound(k: Codec, a: Archive, r: Report, n: nat, prev: Digest)
    requires Usable(a) && Recorded(a, r) && n >= StoreSize(r.outcome.value)
    requires r.outcome.value.votes[0].epoch == r.outcome.value.firstEpoch == Next(a.progress, r.info).epoch
    requires PrevChainDigest(a, r.info.initialTick, Next(a.progress, r.info).tick) == Some(prev)
    ensures Recording(k, a, EntryOf(a, r), r.outcome.value.computors, prev, Process(k, a, r, n))
    ensures var pass := Attempt(r.info, n - StoreSize(r.outcome.value));
            && Process(k, a, r, n).progress == Play(a.progress, pass)
            && (Completes(k, a, r, n) <==> Marks(a.progress, pass))
  {
    var e, v := EntryOf(a, r), r.outcome.value;
    assert ListUsable(a, e.tick.epoch);
    StoreTickWrites(k, a, r.info.initialTick, v, e, prev);
    RecordingIgnoresProgress(k, a, e, v.computors, prev, StoreTick(k, a, r.info.initialTick, e.tick.tick, v).0,
                             Play(a.progress, Attempt(r.info, n - StoreSize(v))));
  }

  lemma RecordingIgnoresProgress(k: Codec, a: Archive, e: Entry, identities: seq<string>, prev: Digest, a': Archive,
                                 s: State)
    requires Recording(k, a, e, identities, prev, a')
    ensures Recording(k, a, e, identities, prev, a'.(progress := s))
  {}

  /** Whether the marker moves, and where to. */
  lemma MarkerAfter(s: State, h: History, e: Attempt)
    requires MarkerOk(s, h) && WellFormed(s, e.info) && Due(s, e.info)
    ensures Marks(s, e) ==> MarkerOk(Play(s, e), h + [Next(s, e.info)])
    ensures !Marks(s, e) ==> MarkerOk(Play(s, e), h)
  {
    HistoryGrows(s, h, e.info);
    NextFollows(s, e.info);
    if Next(s, e.info).tick == LastProcessed(s, e.info).tick + 1 {
      ContiguousStep(s, e);
    } else {
      GapStep(s, e);
    }
  }

  // ---------- passes that do not move the marker ----------

  /** Tick by tick, nothing differs but at one tick, and no computors are forgotten. */
  ghost predicate AwayFrom(a: Archive, a': Archive, t: uint32)
  {
    && a'.quorum - {t} == a.quorum - {t} && a'.tickData - {t} == a.tickData - {t} && a'.chain - {t} == a.chain - {t}
    && a.computors.Keys <= a'.computors.Keys
  }

  /** Writes about one tick that touch neither progress nor caches. */
  ghost predicate RecordsTick(a: Archive, a': Archive, t: uint32)
  {
    && a'.progress == a.progress && AwayFrom(a, a', t)
    && a'.emptyCount == a.emptyCount && a'.emptyList == a.emptyList
  }

  lemma RecordsTickTwice(a: Archive, b: Archive, c: Archive, t: uint32)
    requires RecordsTick(a, b, t) && RecordsTick(b, c, t)
    ensures RecordsTick(a, c, t)
  {}

  lemma ComputorsAway(a: Archive, epoch: uint32, identities: seq<string>, t: uint32)
    ensures RecordsTick(a, StoreComputors(a, epoch, identities), t)
    ensures StoreComputors(a, epoch, identities).chain == a.chain
  {
    ComputorsAside(a, epoch, identities);
  }

  lemma UpdateAway<V>(m: map<uint32, V>, t: uint32, x: V)
    ensures m[t := x] - {t} == m - {t}
  {}

  lemma QuorumAway(k: Codec, a: Archive, tick: uint32, votes: Ballot)
    ensures RecordsTick(a, a.(quorum := a.quorum[tick := StoredOf(k, votes)]), tick)
    ensures RecordsTick(a, StoreQuorum(k, a, tick, votes), tick) && StoreQuorum(k, a, tick, votes).chain == a.chain
  {
    UpdateAway(a.quorum, tick, StoredOf(k, votes));
  }

  lemma TickDataAway(a: Archive, tick: uint32, data: Option<Message>)
    ensures RecordsTick(a, StoreTickData(a, tick, data), tick) && StoreTickData(a, tick, data).chain == a.chain
  {
    UpdateAway(a.tickData, tick, if data.None? then EMPTY_MESSAGE else data.value);
  }

  lemma RecordsCutAway(k: Codec, a: Archive, tick: uint32, v: Validated, n: nat)
    ensures RecordsTick(a, RecordsCut(k, a, tick, v, n), tick)
  {
    if n > 0 {
      var a1 := StoreComputors(a, v.firstEpoch, v.computors);
      ComputorsAway(a, v.firstEpoch, v.computors, tick);
      QuorumAway(k, a1, tick, v.votes);
      if n >= 4 {
        RecordsAreCut(k, a, tick, v);
      } else if n >= 2 {
        RecordsTickTwice(a, a1, RecordsCut(k, a, tick, v, n), tick);
      }
    }
  }

  lemma RecordsAreCut(k: Codec, a: Archive, tick: uint32, v: Validated)
    ensures RecordsTick(a, StoreRecords(k, a, tick, v), tick) && StoreRecords(k, a, tick, v).chain == a.chain
  {
    var a1 := StoreComputors(a, v.firstEpoch, v.computors);
    var a2 := StoreQuorum(k, a1, tick, v.votes);
    ComputorsAway(a, v.firstEpoch, v.computors, tick);
    QuorumAway(k, a1, tick, v.votes);
    TickDataAway(a2, tick, v.data);
    RecordsTickTwice(a, a1, a2, tick);
    RecordsTickTwice(a, a2, StoreRecords(k, a, tick, v), tick);
  }

  lemma InitEmptyUsable(a: Archive, epoch: uint32)
    requires Usable(a)
    ensures var a' := InitEmpty(a, epoch);
            Usable(a') && epoch in a'.emptyList && a' == a.(emptyList := a'.emptyList)
  {
    var a' := InitEmpty(a, epoch);
    forall e: uint32 ensures ListUsable(a', e) {
      assert ListUsable(a, e);
    }
    assert ListUsable(a, epoch);
  }

  lemma CountEmptyUsable(a: Archive, epoch: uint32)
    requires Usable(a) && epoch in a.emptyList
    ensures Usable(CountEmpty(a, epoch))
  {
    forall e: uint32 ensures ListUsable(CountEmpty(a, epoch), e) {
      assert ListUsable(a, e);
    }
  }

  lemma EmptyCutUsable(a: Archive, epoch: uint32, n: nat)
    requires Usable(a)
    ensures var a' := EmptyCut(a, epoch, n);
            Usable(a') && a' == a.(emptyCount := a'.emptyCount, emptyList := a'.emptyList)
  {
    InitEmptyUsable(a, epoch);
    CountEmptyUsable(InitEmpty(a, epoch), epoch);
  }

  lemma StoreEmptyUsable(a: Archive, epoch: uint32, tick: uint32)
    requires Usable(a)
    ensures Usable(StoreEmpty(a, epoch, tick))
  {
    InitEmptyUsable(a, epoch);
    CountEmptyUsable(InitEmpty(a, epoch), epoch);
    var b := CountEmpty(InitEmpty(a, epoch), epoch);
    forall e: uint32 ensures ListUsable(AppendEmpty(b, epoch, tick), e) {
      assert ListUsable(b, e);
    }
  }

  lemma SameCachesUsable(a: Archive, b: Archive)
    requires Usable(a) && b.emptyCount == a.emptyCount && b.emptyList == a.emptyList
    ensures Usable(b)
  {
    forall e: uint32 ensures ListUsable(b, e) {
      assert ListUsable(a, e);
    }
  }

  lemma StoreCutAway(k: Codec, a: Archive, initialTick: uint32, tick: uint32, v: Validated, n: nat)
    requires Usable(a)
    ensures var a' := StoreCut(k, a, initialTick, tick, v, n);
            a'.progress == a.progress && AwayFrom(a, a', tick) && Usable(a')
  {
    if n <= 4 {
      RecordsCutAway(k, a, tick, v, n);
      SameCachesUsable(a, RecordsCut(k, a, tick, v, n));
    } else {
      RecordsAreCut(k, a, tick, v);
      var a1 := StoreRecords(k, a, tick, v);
      SameCachesUsable(a, a1);
      var prev := PrevChainDigest(a1, initialTick, tick);
      if prev.Some? {
        var a2 := StoreChain(k, a1, tick, v.votes[0], prev.value);
        SameCachesUsable(a1, a2);
        UpdateAway(a1.chain, tick, LinkDigest(k, v.votes[0], prev.value));
        EmptyCutUsable(a2, v.firstEpoch, n - 5);
      }
    }
  }

  /** Records and chain below the tick are not affected. */
  lemma AwayKeeps(k: Codec, a: Archive, a': Archive, l: Log, t: uint32)
    requires RecordsOk(k, a, l) && ChainOk(k, a, l) && AwayFrom(a, a', t)
    requires forall i :: 0 <= i < |l| ==> l[i].tick.tick < t
    ensures RecordsOk(k, a', l) && ChainOk(k, a', l)
  {
    forall i | 0 <= i < |l| ensures RecordOk(k, a', l[i]) && LinkStored(k, a', l, i) {
      assert RecordOk(k, a, l[i]) && LinkStored(k, a, l, i);
      var u := l[i].tick.tick;
      assert u in a.quorum - {t} && u in a.tickData - {t} && u in a.chain - {t};
    }
  }

  lemma RecordingIsAway(k: Codec, a: Archive, e: Entry, identities: seq<string>, prev: Digest, a': Archive)
    requires Recording(k, a, e, identities, prev, a') && Usable(a)
    ensures AwayFrom(a, a', e.tick.tick) && Usable(a')
  {
    UpdateAway(a.quorum, e.tick.tick, StoredOf(k, e.votes));
    UpdateAway(a.tickData, e.tick.tick, if e.data.None? then EMPTY_MESSAGE else e.data.value);
    UpdateAway(a.chain, e.tick.tick, LinkDigest(k, e.votes[0], prev));
    CachesStayUsable(a, e, a');
  }

  lemma CachesStayUsable(a: Archive, e: Entry, a': Archive)
    requires CacheWrites(a, e, a') && Usable(a)
    ensures Usable(a')
  {
    if IsEmpty(e.data) {
      StoreEmptyUsable(a, e.tick.epoch, e.tick.tick);
      SameCachesUsable(StoreEmpty(a, e.tick.epoch, e.tick.tick), a');
    } else {
      SameCachesUsable(a, a');
    }
  }

  lemma {:induction false} DigestsOfPrefix(k: Codec, l: Log, e: Entry, i: nat)
    requires i < |l|
    ensures DigestAt(k, l + [e], i) == DigestAt(k, l, i)
  {
    assert (l + [e])[i] == l[i];
    if i > 0 {
      DigestsOfPrefix(k, l, e, i - 1);
    }
  }

  lemma ChainAdvances(k: Codec, a: Archive, a': Archive, l: Log, e: Entry)
    requires ChainOk(k, a, l)
    requires forall i :: 0 <= i < |l| ==> l[i].tick.tick < e.tick.tick
    requires e.reset || (l != [] && e.tick.tick == l[|l| - 1].tick.tick + 1)
    requires a'.chain == a.chain[e.tick.tick := LinkDigest(k, e.votes[0], PrevOf(k, l, e.reset))]
    ensures ChainOk(k, a', l + [e])
  {
    var l' := l + [e];
    forall i | 0 <= i < |l'| ensures LinkStored(k, a', l', i) {
      if i < |l| {
        assert l'[i] == l[i];
        DigestsOfPrefix(k, l, e, i);
        assert LinkStored(k, a, l, i);
      } else if l != [] {
        DigestsOfPrefix(k, l, e, |l| - 1);
      }
    }
  }

  lemma RecordsAdvance(k: Codec, a: Archive, a': Archive, l: Log, e: Entry, identities: seq<string>)
    requires RecordsOk(k, a, l) && e.votes[0].epoch == e.tick.epoch
    requires forall i :: 0 <= i < |l| ==> l[i].tick.tick < e.tick.tick
    requires TableWrites(k, a, e, identities, a')
    ensures RecordsOk(k, a', l + [e])
  {
    var l' := l + [e];
    forall i | 0 <= i < |l'| ensures RecordOk(k, a', l'[i]) {
      if i < |l| {
        assert l'[i] == l[i];
        assert RecordOk(k, a, l[i]);
      }
    }
  }

  /** A pass that stops short of the marker. */
  lemma ShortPassKeepsBasic(k: Codec, a: Archive, l: Log, r: Report, n: nat)
    requires BasicOk(k, a, l) && ReportOk(a, r) && Recorded(a, r) && !Completes(k, a, r, n)
    ensures BasicOk(k, Process(k, a, r, n), l)
  {
    var e, v, a' := EntryOf(a, r), r.outcome.value, Process(k, a, r, n);
    NextEntry(a, l, r);
    if n < StoreSize(v) {
      StoreCutAway(k, a, r.info.initialTick, e.tick.tick, v, n);
    } else {
      ProcessWrites(k, a, l, r, n);
      MarkerAfter(a.progress, TicksIn(l), Attempt(r.info, n - StoreSize(v)));
      RecordingIsAway(k, a, e, v.computors, PrevOf(k, l, e.reset), a');
    }
    AwayKeeps(k, a, a', l, e.tick.tick);
  }

  /** A pass that moves the marker. */
  lemma PassKeepsBasic(k: Codec, a: Archive, l: Log, r: Report, n: nat)
    requires BasicOk(k, a, l) && ReportOk(a, r) && Completes(k, a, r, n)
    ensures BasicOk(k, Process(k, a, r, n), l + [EntryOf(a, r)])
  {
    var e, v, a' := EntryOf(a, r), r.outcome.value, Process(k, a, r, n);
    ProcessWrites(k, a, l, r, n);
    NextEntry(a, l, r);
    MarkerAfter(a.progress, TicksIn(l), Attempt(r.info, n - StoreSize(v)));
    RecordingIsAway(k, a, e, v.computors, PrevOf(k, l, e.reset), a');
    ChainAdvances(k, a, a', l, e);
    RecordsAdvance(k, a, a', l, e, v.computors);
  }

  /** A start of the program touches the caches alone. */
  lemma StartKeepsUsable(a: Archive, reset: bool, done: set<uint32>)
    requires Usable(a)
    ensures var a' := Recalculate(BeforeRecalculation(a, reset), done);
            Usable(a') && a' == a.(emptyCount := a'.emptyCount, emptyList := a'.emptyList)
  {
    var b := BeforeRecalculation(a, reset);
    var a' := Recalculate(b, done);
    forall e: uint32 ensures ListUsable(a', e) {
      assert ListUsable(a, e);
    }
  }

  lemma CachesAside(k: Codec, a: Archive, b: Archive, l: Log)
    requires BasicOk(k, a, l) && Usable(b) && b == a.(emptyCount := b.emptyCount, emptyList := b.emptyList)
    ensures BasicOk(k, b, l)
  {
    forall i | 0 <= i < |l| ensures RecordOk(k, b, l[i]) && LinkStored(k, b, l, i) {
      assert RecordOk(k, a, l[i]) && LinkStored(k, a, l, i);
    }
  }

  lemma ActKeepsBasic(k: Codec, a: Archive, l: Log, x: Action)
    requires BasicOk(k, a, l) && ActionOk(a, x)
    ensures BasicOk(k, Act(k, a, x), l + NewEntries(k, a, x))
  {
    assert l + [] == l;
    match x
    case Pass(r, n) =>
      if Recorded(a, r) {
        if Completes(k, a, r, n) {
          PassKeepsBasic(k, a, l, r, n);
        } else {
          ShortPassKeepsBasic(k, a, l, r, n);
        }
      }
    case Start(reset, done) =>
      StartKeepsUsable(a, reset, done);
      CachesAside(k, a, Act(k, a, x), l);
  }

  lemma NothingIsBasic(k: Codec)
    ensures BasicOk(k, NOTHING, [])
  {}

  /** Every run, interrupted and restarted anywhere, keeps complete records and an accurate chain. */
  lemma {:induction false} RunKeepsArchive(k: Codec, run: seq<Action>)
    requires ActionsOk(k, run)
    ensures BasicOk(k, FinalArchive(k, run), LogOf(k, run))
  {
    if run == [] {
      NothingIsBasic(k);
    } else {
      var before := run[..|run| - 1];
      RunKeepsArchive(k, before);
      ActKeepsBasic(k, FinalArchive(k, before), LogOf(k, before), run[|run| - 1]);
    }
  }

  // ---------- runs of whole passes ----------

  /** In a run of whole passes everything is exact. */
  ghost predicate ArchiveOk(k: Codec, a: Archive, l: Log)
  {
    BasicOk(k, a, l) && ProgressOk(a, l)
  }

  /** A whole pass records its tick, and its progress is that of an uninterrupted step. */
  lemma WholePass(k: Codec, a: Archive, l: Log, r: Report, n: nat)
    requires BasicOk(k, a, l) && ReportOk(a, r) && Recorded(a, r) && n >= ALL
    ensures Completes(k, a, r, n) && Process(k, a, r, n).progress == Step(a.progress, r.info)
    ensures Recording(k, a, EntryOf(a, r), r.outcome.value.computors, PrevOf(k, l, EntryOf(a, r).reset),
                      Process(k, a, r, n))
  {
    ProcessWrites(k, a, l, r, n);
    HistoryGrows(a.progress, TicksIn(l), r.info);
    WritesAcrossGap(a.progress, r.info);
    assert Writes(a.progress, r.info)[..|Writes(a.progress, r.info)|] == Writes(a.progress, r.info);
  }

  lemma ProgressAdvances(a: Archive, a': Archive, l: Log, r: Report)
    requires ProgressOk(a, l) && ReportOk(a, r) && Recorded(a, r) && a'.progress == Step(a.progress, r.info)
    ensures ProgressOk(a', l + [EntryOf(a, r)])
  {
    MarkerOf(a, l);
    NextEntry(a, l, r);
    CleanStepKeepsExact(a.progress, TicksIn(l), Attempt(r.info, ALL_WRITES));
    PlayIsStep(a.progress, r.info);
  }

  lemma MarkerOf(a: Archive, l: Log)
    requires ProgressOk(a, l)
    ensures MarkerOk(a.progress, TicksIn(l))
  {}

  lemma SameProgressOk(a: Archive, b: Archive, l: Log)
    requires a.progress == b.progress && ProgressOk(a, l)
    ensures ProgressOk(b, l)
  {}

  lemma WholeActKeepsProgress(k: Codec, a: Archive, l: Log, x: Action)
    requires ArchiveOk(k, a, l) && ActionOk(a, x) && (x.Pass? ==> x.writes >= ALL)
    ensures ProgressOk(Act(k, a, x), l + NewEntries(k, a, x))
    ensures x.Pass? ==> NewEntries(k, a, x) == if Recorded(a, x.report) then [EntryOf(a, x.report)] else []
  {
    if x.Pass? && Recorded(a, x.report) {
      WholePass(k, a, l, x.report, x.writes);
      ProgressAdvances(a, Act(k, a, x), l, x.report);
    } else {
      IdleActKeepsProgress(k, a, l, x);
    }
  }

  /** A start, or a pass with nothing to record. */
  lemma IdleActKeepsProgress(k: Codec, a: Archive, l: Log, x: Action)
    requires ProgressOk(a, l) && !(x.Pass? && Recorded(a, x.report))
    ensures NewEntries(k, a, x) == [] && ProgressOk(Act(k, a, x), l + NewEntries(k, a, x))
  {
    IdleIsSame(k, a, l, x);
    SameProgressOk(a, Act(k, a, x), l);
  }

  lemma IdleIsSame(k: Codec, a: Archive, l: Log, x: Action)
    requires !(x.Pass? && Recorded(a, x.report))
    ensures NewEntries(k, a, x) == [] && l + NewEntries(k, a, x) == l && Act(k, a, x).progress == a.progress
  {
    IdleAct(k, a, x);
  }

  lemma IdleAct(k: Codec, a: Archive, x: Action)
    requires !(x.Pass? && Recorded(a, x.report))
    ensures NewEntries(k, a, x) == []
    ensures var a' := Act(k, a, x); a' == a.(emptyCount := a'.emptyCount, emptyList := a'.emptyList)
    ensures x.Pass? ==> Act(k, a, x) == a
  {}

  lemma NothingIsExact()
    ensures ProgressOk(NOTHING, [])
  {
    CleanRunIsExact([]);
    assert TicksIn([]) == [] == HistoryOf([]);
    assert Final([]) == EMPTY;
  }

  lemma WholePrefix(run: seq<Action>)
    requires Whole(run) && run != []
    ensures Whole(run[..|run| - 1]) && (run[|run| - 1].Pass? ==> run[|run| - 1].writes >= ALL)
  {}

  /** Every run of whole passes also keeps the progress tables exact. */
  lemma {:induction false} WholeRunKeepsArchive(k: Codec, run: seq<Action>)
    requires ActionsOk(k, run) && Whole(run)
    ensures ArchiveOk(k, FinalArchive(k, run), LogOf(k, run))
  {
    RunKeepsArchive(k, run);
    if run == [] {
      NothingIsExact();
    } else {
      var before := run[..|run| - 1];
      WholePrefix(run);
      WholeRunKeepsArchive(k, before);
      WholeActKeepsProgress(k, FinalArchive(k, before), LogOf(k, before), run[|run| - 1]);
    }
  }

  // ---------- over runs ----------

  /** After any run, the chain lookup for the next recorded tick succeeds. */
  lemma ChainNeverBreaks(k: Codec, run: seq<Action>, r: Report)
    requires ActionsOk(k, run) && ReportOk(FinalArchive(k, run), r) && Recorded(FinalArchive(k, run), r)
    ensures var a, l := FinalArchive(k, run), LogOf(k, run);
            PrevChainDigest(a, r.info.initialTick, Next(a.progress, r.info).tick)
            == Some(PrevOf(k, l, EntryOf(a, r).reset))
  {
    RunKeepsArchive(k, run);
    ChainLookupSucceeds(k, FinalArchive(k, run), LogOf(k, run), r);
  }

  lemma DigestIsStored(k: Codec, a: Archive, l: Log, i: nat)
    requires BasicOk(k, a, l) && i < |l|
    ensures l[i].tick.tick in a.chain && a.chain[l[i].tick.tick] == DigestAt(k, l, i)
  {
    assert LinkStored(k, a, l, i);
  }

  /** The passes of an archive's run, as passes of the progress machine. */
  ghost function AttemptsOf(run: seq<Action>): (r: Run)
  {
    if run == [] then [] else AttemptsOf(run[..|run| - 1]) + AttemptOf(run[|run| - 1])
  }

  /** A pass that does not get to its progress writes performs none of them. */
  function AttemptOf(x: Action): (r: Run)
  {
    if x.Start? || x.report.outcome.None? then []
    else
      var n := StoreSize(x.report.outcome.value);
      [Attempt(x.report.info, if x.writes < n then 0 else x.writes - n)]
  }

  /** The progress tables and the recorded ticks of an archive's run are those of the progress machine's
      run, so what is proved of the latter holds of the archive. */
  lemma {:induction false} ProgressOfRun(k: Codec, run: seq<Action>)
    requires ActionsOk(k, run)
    ensures FinalArchive(k, run).progress == Final(AttemptsOf(run))
    ensures TicksIn(LogOf(k, run)) == HistoryOf(AttemptsOf(run))
  {
    if run != [] {
      var before, x := run[..|run| - 1], run[|run| - 1];
      ProgressOfRun(k, before);
      RunKeepsArchive(k, before);
      var a, l := FinalArchive(k, before), LogOf(k, before);
      ProgressOfAct(k, a, l, x);
      AttemptAppended(AttemptsOf(before), AttemptOf(x));
      TicksAppended(l, NewEntries(k, a, x));
    } else {
      assert TicksIn([]) == [];
    }
  }

  /** The effect of at most one more attempt. */
  lemma AttemptAppended(r: Run, more: Run)
    requires |more| <= 1
    ensures Final(r + more) == if more == [] then Final(r) else Play(Final(r), more[0])
    ensures HistoryOf(r + more)
            == HistoryOf(r) + if more != [] && Marks(Final(r), more[0]) then [Next(Final(r), more[0].info)] else []
  {
    if more == [] {
      assert r + more == r && HistoryOf(r) + [] == HistoryOf(r);
    } else {
      assert (r + more)[..|r|] == r && (r + more)[|r|] == more[0];
    }
  }

  lemma {:induction false} WholeAttempts(k: Codec, run: seq<Action>)
    requires ActionsOk(k, run) && Whole(run)
    ensures ReportsWellFormed(AttemptsOf(run)) && Uninterrupted(AttemptsOf(run))
  {
    if run != [] {
      var before, x := run[..|run| - 1], run[|run| - 1];
      WholePrefix(run);
      WholeAttempts(k, before);
      ProgressOfRun(k, before);
      WholeAttempt(AttemptsOf(before), FinalArchive(k, before), x);
    }
  }

  lemma WholeAttempt(r: Run, a: Archive, x: Action)
    requires ReportsWellFormed(r) && Uninterrupted(r) && Final(r) == a.progress
    requires ActionOk(a, x) && (x.Pass? ==> x.writes >= ALL)
    ensures ReportsWellFormed(r + AttemptOf(x)) && Uninterrupted(r + AttemptOf(x))
  {
    if AttemptOf(x) == [] {
      assert r + AttemptOf(x) == r;
    } else {
      assert (r + AttemptOf(x))[..|r|] == r;
    }
  }

  /** Whole passes are runs of the progress machine in which nothing is lost, pending or stray. */
  lemma WholeRunLosesNothing(k: Codec, run: seq<Action>)
    requires ActionsOk(k, run) && Whole(run)
    ensures RunOk(AttemptsOf(run)) && FateOf(AttemptsOf(run)) == NO_LOSS
  {
    WholeAttempts(k, run);
    CleanRunIsExact(AttemptsOf(run));
  }

  lemma TicksAppended(l: Log, more: Log)
    ensures TicksIn(l + more) == TicksIn(l) + TicksIn(more)
  {}

  lemma ProgressOfAct(k: Codec, a: Archive, l: Log, x: Action)
    requires BasicOk(k, a, l) && ActionOk(a, x)
    ensures var more, s := AttemptOf(x), a.progress;
            && Act(k, a, x).progress == (if more == [] then s else Play(s, more[0]))
            && TicksIn(NewEntries(k, a, x)) == if more != [] && Marks(s, more[0]) then [Next(s, more[0].info)] else []
  {
    assert TicksIn([]) == [];
    if x.Pass? && Recorded(a, x.report) {
      ProgressOfPass(k, a, l, x.report, x.writes);
    }
  }

  lemma ProgressOfPass(k: Codec, a: Archive, l: Log, r: Report, n: nat)
    requires BasicOk(k, a, l) && ReportOk(a, r) && Recorded(a, r)
    ensures var e := AttemptOf(Pass(r, n))[0];
            && Process(k, a, r, n).progress == Play(a.progress, e)
            && TicksIn(NewEntries(k, a, Pass(r, n))) == if Marks(a.progress, e) then [Next(a.progress, r.info)] else []
  {
    PassPlays(k, a, l, r, n);
    NewTicks(k, a, r, n);
  }

  lemma NewTicks(k: Codec, a: Archive, r: Report, n: nat)
    requires Recorded(a, r)
    ensures TicksIn(NewEntries(k, a, Pass(r, n))) == if Completes(k, a, r, n) then [Next(a.progress, r.info)] else []
  {
    assert TicksIn([]) == [] && TicksIn([EntryOf(a, r)]) == [Next(a.progress, r.info)];
  }

  lemma PassPlays(k: Codec, a: Archive, l: Log, r: Report, n: nat)
    requires BasicOk(k, a, l) && ReportOk(a, r) && Recorded(a, r)
    ensures var e := AttemptOf(Pass(r, n))[0];
            Process(k, a, r, n).progress == Play(a.progress, e) && (Completes(k, a, r, n) <==> Marks(a.progress, e))
  {
    if n >= StoreSize(r.outcome.value) {
      ProcessWrites(k, a, l, r, n);
    } else {
      ProgressOfCut(k, a, r, n);
      NothingWritten(a.progress, TicksIn(l), r.info);
    }
  }

  lemma ProgressOfCut(k: Codec, a: Archive, r: Report, n: nat)
    requires Usable(a) && Recorded(a, r) && n < StoreSize(r.outcome.value)
    ensures Process(k, a, r, n).progress == a.progress && !Completes(k, a, r, n)
  {
    StoreCutAway(k, a, r.info.initialTick, Next(a.progress, r.info).tick, r.outcome.value, n);
  }

  lemma NothingWritten(s: State, h: History, info: TickInfo)
    requires MarkerOk(s, h) && WellFormed(s, info) && Due(s, info)
    ensures Play(s, Attempt(info, 0)) == s && !Marks(s, Attempt(info, 0))
  {
    HistoryGrows(s, h, info);
    WritesAcrossGap(s, info);
    assert Writes(s, info)[..0] == [];
  }
}
