/** The archive as a whole: what validating and recording one tick writes besides the progress
    markers, what a start of the program does to the empty-tick caches, and runs of both. A pass over a
    tick may stop between any two of its writes. */
module Archive {
  import opened Bytes
  import opened Wrappers
  import opened Keys
  import opened Progress
  import Gate
  import opened Votes
  import opened QuorumRecords

  /** A tick data message; the empty message stands for a tick without data. */
  type Message = bytes

  const EMPTY_MESSAGE: Message := []

  datatype Archive = Archive(
    progress: State,
    quorum: map<uint32, Stored>,
    lastQuorum: map<uint32, map<nat, Full>>,
    tickData: map<uint32, Message>,
    chain: map<uint32, Digest>,
    emptyCount: map<uint32, uint32>,
    emptyList: map<uint32, seq<uint32>>,
    computors: map<uint32, seq<string>>)

  const NOTHING: Archive := Archive(EMPTY, map[], map[], map[], map[], map[], map[], map[])

  /** What the validator obtained for a tick: the aligned votes, the epoch of the first vote received,
      the converted tick data (absent for an empty tick), and the epoch's computor identities. */
  datatype Validated = Validated(votes: Ballot, firstEpoch: uint16, data: Option<Message>, computors: seq<string>)

  /** One processing attempt: the node's report, and the validated tick unless validation failed. */
  datatype Report = Report(info: TickInfo, outcome: Option<Validated>)

  // ---------- the writes of one tick ----------

  function StoreComputors(a: Archive, epoch: uint32, identities: seq<string>): (r: Archive)
  {
    if epoch in a.computors then a else a.(computors := a.computors[epoch := identities])
  }

  /** The index under which the votes of the current tick are kept in full: that of the epoch's newest
      interval, as stored before the tick is recorded. */
  function IntervalIndex(s: State, epoch: uint32): (i: nat)
  {
    var n := |IntervalsOf(s, epoch)|;
    if n == 0 then 0 else n - 1
  }

  function LastQuorumOf(a: Archive, epoch: uint32): (r: map<nat, Full>)
  {
    if epoch in a.lastQuorum then a.lastQuorum[epoch] else map[]
  }

  function StoreQuorum(k: Codec, a: Archive, tick: uint32, votes: Ballot): (r: Archive)
  {
    var epoch: uint32 := votes[0].epoch;
    a.(quorum := a.quorum[tick := StoredOf(k, votes)],
       lastQuorum := a.lastQuorum[
         epoch := LastQuorumOf(a, epoch)[IntervalIndex(a.progress, epoch) := FullOf(k, votes)]])
  }

  /** An absent message is stored as the empty one. */
  function StoreTickData(a: Archive, tick: uint32, data: Option<Message>): (r: Archive)
  {
    a.(tickData := a.tickData[tick := if data.None? then EMPTY_MESSAGE else data.value])
  }

  /** Subtraction of one in 32 bits. */
  function Pred(t: uint32): (r: uint32)
  {
    (t - 1) % 0x1_0000_0000
  }

  /** The digest the next link continues from; the first tick of an epoch starts from zero. */
  function PrevChainDigest(a: Archive, initialTick: uint32, tick: uint32): (d: Option<Digest>)
  {
    if tick == initialTick then Some(ZeroDigest())
    else if Pred(tick) in a.chain then Some(a.chain[Pred(tick)])
    else None
  }

  function LinkDigest(k: Codec, v: Vote, prev: Digest): (d: Digest)
  {
    k.hash(ChainBytes(ChainContentOf(v), prev))
  }

  function StoreChain(k: Codec, a: Archive, tick: uint32, v: Vote, prev: Digest): (r: Archive)
  {
    a.(chain := a.chain[tick := LinkDigest(k, v, prev)])
  }

  predicate IsEmpty(data: Option<Message>)
  {
    data.None? || data.value == EMPTY_MESSAGE
  }

  function EmptyCountOf(a: Archive, epoch: uint32): (n: uint32)
  {
    if epoch in a.emptyCount then a.emptyCount[epoch] else 0
  }

  function EmptyListOf(a: Archive, epoch: uint32): (ts: seq<uint32>)
  {
    if epoch in a.emptyList then a.emptyList[epoch] else []
  }

  /** Appending to an epoch's list of empty ticks needs the list; it is missing only where a count is
      stored without one. */
  predicate ListUsable(a: Archive, epoch: uint32)
  {
    EmptyCountOf(a, epoch) == 0 || epoch in a.emptyList
  }

  /** A zero count first clears the list. */
  function InitEmpty(a: Archive, epoch: uint32): (r: Archive)
  {
    if EmptyCountOf(a, epoch) == 0 then a.(emptyList := a.emptyList[epoch := []]) else a
  }

  function CountEmpty(a: Archive, epoch: uint32): (r: Archive)
  {
    a.(emptyCount := a.emptyCount[epoch := Succ(EmptyCountOf(a, epoch))])
  }

  function AppendEmpty(a: Archive, epoch: uint32, tick: uint32): (r: Archive)
  {
    a.(emptyList := a.emptyList[epoch := EmptyListOf(a, epoch) + [tick]])
  }

  /** Counts an empty tick and appends it to the epoch's list. */
  function StoreEmpty(a: Archive, epoch: uint32, tick: uint32): (r: Archive)
  {
    AppendEmpty(CountEmpty(InitEmpty(a, epoch), epoch), epoch, tick)
  }

  /** The writes before the chain digest is looked up. */
  function StoreRecords(k: Codec, a: Archive, tick: uint32, v: Validated): (r: Archive)
  {
    StoreTickData(StoreQuorum(k, StoreComputors(a, v.firstEpoch, v.computors), tick, v.votes), tick, v.data)
  }

  /** All writes of a validated tick; fewer if the chain lookup fails or the list of empty ticks is
      missing, which ends the pass with an error. */
  function StoreTick(k: Codec, a: Archive, initialTick: uint32, tick: uint32, v: Validated): (r: (Archive, bool))
  {
    var a1 := StoreRecords(k, a, tick, v);
    match PrevChainDigest(a1, initialTick, tick)
    case None => (a1, false)
    case Some(prev) => FinishTick(StoreChain(k, a1, tick, v.votes[0], prev), tick, v)
  }

  /** The bookkeeping of empty ticks. */
  function FinishTick(a: Archive, tick: uint32, v: Validated): (r: (Archive, bool))
  {
    if !IsEmpty(v.data) then (a, true)
    else if ListUsable(a, v.firstEpoch) then (StoreEmpty(a, v.firstEpoch, tick), true)
    else (CountEmpty(a, v.firstEpoch), false)
  }

  /** The number of writes for a tick before its progress writes. */
  function StoreSize(v: Validated): (n: nat)
  {
    if IsEmpty(v.data) then 8 else 5
  }

  /** The first `n` of those writes, for fewer than all of them. */
  function StoreCut(k: Codec, a: Archive, initialTick: uint32, tick: uint32, v: Validated, n: nat): (r: Archive)
  {
    if n <= 4 then RecordsCut(k, a, tick, v, n)
    else
      var a1 := StoreRecords(k, a, tick, v);
      match PrevChainDigest(a1, initialTick, tick)
      case None => a1
      case Some(prev) => EmptyCut(StoreChain(k, a1, tick, v.votes[0], prev), v.firstEpoch, n - 5)
  }

  function RecordsCut(k: Codec, a: Archive, tick: uint32, v: Validated, n: nat): (r: Archive)
  {
    var a1 := StoreComputors(a, v.firstEpoch, v.computors);
    if n == 0 then a
    else if n == 1 then a1
    else if n == 2 then a1.(quorum := a1.quorum[tick := StoredOf(k, v.votes)])
    else if n == 3 then StoreQuorum(k, a1, tick, v.votes)
    else StoreTickData(StoreQuorum(k, a1, tick, v.votes), tick, v.data)
  }

  function EmptyCut(a: Archive, epoch: uint32, n: nat): (r: Archive)
  {
    if n == 0 then a
    else if n == 1 then InitEmpty(a, epoch)
    else CountEmpty(InitEmpty(a, epoch), epoch)
  }

  // ---------- recomputing the caches ----------

  /** The ticks an interval stands for, by 32-bit offsets from its first tick. */
  function OffsetTicks(iv: Interval): (r: seq<uint32>)
  {
    seq(Succ(Distance(iv.last, iv.first)), i requires 0 <= i < Succ(Distance(iv.last, iv.first)) => Offset(iv, i))
  }

  function Offset(iv: Interval, i: nat): (t: uint32)
  {
    (i + iv.first) % 0x1_0000_0000
  }

  function AllOffsetTicks(ivs: seq<Interval>): (r: seq<uint32>)
  {
    if ivs == [] then [] else AllOffsetTicks(ivs[..|ivs| - 1]) + OffsetTicks(ivs[|ivs| - 1])
  }

  predicate AllStored(tickData: map<uint32, Message>, ts: seq<uint32>)
  {
    forall i :: 0 <= i < |ts| ==> ts[i] in tickData
  }

  predicate HasNoData(tickData: map<uint32, Message>, t: uint32)
  {
    t in tickData && tickData[t] == EMPTY_MESSAGE
  }

  /** The ticks among `ts` whose stored data is empty. */
  function EmptyOnly(tickData: map<uint32, Message>, ts: seq<uint32>): (r: seq<uint32>)
  {
    if ts == [] then []
    else EmptyOnly(tickData, ts[..|ts| - 1]) + if HasNoData(tickData, ts[|ts| - 1]) then [ts[|ts| - 1]] else []
  }

  /** The search fails if data is missing for one of the ticks. */
  function EmptyAmong(tickData: map<uint32, Message>, ts: seq<uint32>): (r: Option<seq<uint32>>)
  {
    if AllStored(tickData, ts) then Some(EmptyOnly(tickData, ts)) else None
  }

  /** Recomputation of an epoch's empty ticks; an epoch that is not stored has none. */
  ghost function Calculate(a: Archive, epoch: uint32): (r: Option<seq<uint32>>)
  {
    match Gate.EntryOf(epoch, AllIntervals(a.progress))
    case None => Some([])
    case Some(ivs) => EmptyAmong(a.tickData, AllOffsetTicks(ivs))
  }

  /** The epochs that reset and recalculation go through: those with a last-tick record. */
  ghost function RecordedEpochs(a: Archive): (s: set<uint32>)
  {
    set e | e in a.progress.lastPerEpoch && e <= MAX_SCANNED_EPOCH
  }

  ghost function Reset(a: Archive): (r: Archive)
  {
    a.(emptyCount := a.emptyCount - RecordedEpochs(a), emptyList := a.emptyList - RecordedEpochs(a))
  }

  /** What recomputation finds, of no account where it fails. */
  ghost function Found(a: Archive, epoch: uint32): (r: seq<uint32>)
  {
    if Calculate(a, epoch).Some? then Calculate(a, epoch).value else []
  }

  /** The map with the entries of some epochs replaced. */
  ghost function SetAll<V>(m: map<uint32, V>, done: set<uint32>, f: uint32 -> V): (r: map<uint32, V>)
    ensures r.Keys == m.Keys + done
    ensures forall e :: e in r ==> r[e] == if e in done then f(e) else m[e]
  {
    m + map e: uint32 | e in done :: f(e)
  }

  /** The caches of some epochs, recomputed. */
  ghost function Recalculate(a: Archive, done: set<uint32>): (r: Archive)
  {
    a.(emptyCount := SetAll(a.emptyCount, done, (e: uint32) => (|Found(a, e)| % 0x1_0000_0000) as uint32),
       emptyList := SetAll(a.emptyList, done, (e: uint32) => Found(a, e)))
  }

  /** Recalculation goes through the recorded epochs in the arbitrary order of a hash map and stops at
      the first one that has a count: so these are the epochs it may have recomputed at its end. */
  ghost predicate MayRecalculate(a: Archive, done: set<uint32>)
  {
    && done <= RecordedEpochs(a)
    && (forall e :: e in done ==> e !in a.emptyCount && Calculate(a, e).Some?)
    && (done == RecordedEpochs(a) || exists e :: e in RecordedEpochs(a) && e in a.emptyCount)
  }

  ghost function BeforeRecalculation(a: Archive, reset: bool): (r: Archive)
  {
    if reset then Reset(a) else a
  }

  // ---------- runs ----------

  /** A pass over one report, stopped after some number of writes, or a start of the program, which
      resets the caches if told to and recomputes those of some epochs. */
  datatype Action = Pass(report: Report, writes: nat) | Start(reset: bool, done: set<uint32>)

  /** As many writes as a pass can have. */
  const ALL: nat := 8 + ALL_WRITES

  ghost function Act(k: Codec, a: Archive, x: Action): (a': Archive)
  {
    match x
    case Pass(r, n) => Process(k, a, r, n)
    case Start(reset, done) => Recalculate(BeforeRecalculation(a, reset), done)
  }

  function Process(k: Codec, a: Archive, r: Report, n: nat): (a': Archive)
  {
    if !Recorded(a, r) then a
    else
      var tick, v := Next(a.progress, r.info).tick, r.outcome.value;
      if n < StoreSize(v) then StoreCut(k, a, r.info.initialTick, tick, v, n)
      else
        var (a1, ok) := StoreTick(k, a, r.info.initialTick, tick, v);
        if ok then a1.(progress := Play(a.progress, Attempt(r.info, n - StoreSize(v)))) else a1
  }

  /** The pass has something to record: the node has reached the next tick and validation succeeded. */
  predicate Recorded(a: Archive, r: Report)
  {
    Due(a.progress, r.info) && r.outcome.Some?
  }

  /** The pass moves the marker. */
  predicate Completes(k: Codec, a: Archive, r: Report, n: nat)
  {
    && Recorded(a, r) && n >= StoreSize(r.outcome.value)
    && StoreTick(k, a, r.info.initialTick, Next(a.progress, r.info).tick, r.outcome.value).1
    && Marks(a.progress, Attempt(r.info, n - StoreSize(r.outcome.value)))
  }

  /** A recorded tick; `reset` tells that its chain digest starts anew. */
  datatype Entry = Entry(tick: ProcessedTick, votes: Ballot, data: Option<Message>, reset: bool)

  type Log = seq<Entry>

  /** What the archiver assumes of a report: besides well-formed node information, an epoch starts at
      a positive tick, and the votes belong to the epoch the processor is in. */
  predicate ReportOk(a: Archive, r: Report)
  {
    && WellFormed(a.progress, r.info) && r.info.initialTick >= 1
    && (r.outcome.Some? ==>
          && r.outcome.value.votes[0].epoch == Next(a.progress, r.info).epoch
          && r.outcome.value.firstEpoch == Next(a.progress, r.info).epoch)
  }

  ghost predicate ActionOk(a: Archive, x: Action)
  {
    match x
    case Pass(r, _) => ReportOk(a, r)
    case Start(reset, done) => MayRecalculate(BeforeRecalculation(a, reset), done)
  }

  ghost function FinalArchive(k: Codec, run: seq<Action>): (a: Archive)
  {
    if run == [] then NOTHING
    else Act(k, FinalArchive(k, run[..|run| - 1]), run[|run| - 1])
  }

  ghost predicate ActionsOk(k: Codec, run: seq<Action>)
  {
    run == [] || (ActionsOk(k, run[..|run| - 1]) && ActionOk(FinalArchive(k, run[..|run| - 1]), run[|run| - 1]))
  }

  /** No pass stops before its last write. */
  predicate Whole(run: seq<Action>)
  {
    forall i :: 0 <= i < |run| && run[i].Pass? ==> run[i].writes >= ALL
  }

  function EntryOf(a: Archive, r: Report): (e: Entry)
    requires r.outcome.Some?
  {
    var next := Next(a.progress, r.info);
    Entry(next, r.outcome.value.votes, r.outcome.value.data, next.tick == r.info.initialTick)
  }

  /** The recorded ticks: those whose marker write happened. */
  ghost function LogOf(k: Codec, run: seq<Action>): (l: Log)
  {
    if run == [] then []
    else LogOf(k, run[..|run| - 1]) + NewEntries(k, FinalArchive(k, run[..|run| - 1]), run[|run| - 1])
  }

  function NewEntries(k: Codec, a: Archive, x: Action): (l: Log)
  {
    if x.Pass? && Completes(k, a, x.report, x.writes) then [EntryOf(a, x.report)] else []
  }

  /** The ticks of a log. */
  function TicksIn(l: Log): (h: History)
    ensures |h| == |l| && forall i :: 0 <= i < |l| ==> h[i] == l[i].tick
  {
    seq(|l|, i requires 0 <= i < |l| => l[i].tick)
  }
}
