/** The tick progress machine: which tick is processed next, and how the last-processed marker, the
    processed intervals and the skipped ranges are written. One processing step is a list of
    durable writes, each of them atomic, so that a step can be cut between any two of them. */
module Progress {
  import opened Bytes
  import opened Wrappers
  import opened Keys

  datatype ProcessedTick = ProcessedTick(tick: uint32, epoch: uint32)
  datatype Interval = Interval(first: uint32, last: uint32)
  datatype Skip = Skip(start: uint32, end: uint32)

  /** What a node reports: the first tick of its epoch, its current tick, its epoch. */
  datatype TickInfo = TickInfo(initialTick: uint32, tick: uint32, epoch: uint16)

  datatype State = State(
    last: Option<ProcessedTick>,
    lastPerEpoch: map<uint32, uint32>,
    intervals: map<uint32, seq<Interval>>,
    skipped: seq<Skip>)

  const EMPTY: State := State(None, map[], map[], [])

  /** Addition of one in 32 bits. */
  function Succ(t: uint32): (r: uint32)
  {
    (t + 1) % 0x1_0000_0000
  }

  /** The 32-bit difference `n - l`. */
  function Distance(n: uint32, l: uint32): (d: uint32)
  {
    (n - l) % 0x1_0000_0000
  }

  // ---------- choosing the next tick ----------

  function LastProcessed(s: State, info: TickInfo): (t: ProcessedTick)
  {
    match s.last
    case None => ProcessedTick(0, info.epoch)
    case Some(t) => t
  }

  function NextTick(last: ProcessedTick, info: TickInfo): (t: ProcessedTick)
  {
    if info.initialTick > last.tick then ProcessedTick(info.initialTick, info.epoch)
    else ProcessedTick(Succ(last.tick), last.epoch)
  }

  function Next(s: State, info: TickInfo): (t: ProcessedTick)
  {
    NextTick(LastProcessed(s, info), info)
  }

  /** The node has reached the next tick; otherwise the step stops with "tick in the future". */
  predicate Due(s: State, info: TickInfo)
  {
    Next(s, info).tick <= info.tick
  }

  // ---------- durable writes ----------

  function IntervalsOf(s: State, epoch: uint32): (r: seq<Interval>)
  {
    if epoch in s.intervals then s.intervals[epoch] else []
  }

  /** Moves the end of the newest interval, or opens the first one. */
  function Extended(ivs: seq<Interval>, tick: uint32): (r: seq<Interval>)
    ensures |r| > 0
  {
    if ivs == [] then [Interval(tick, tick)]
    else ivs[|ivs| - 1 := Interval(ivs[|ivs| - 1].first, tick)]
  }

  datatype Write =
    | AppendInterval(epoch: uint32, interval: Interval)
    | AppendSkip(skip: Skip)
    | MarkLast(tick: ProcessedTick)
    | ExtendInterval(tick: ProcessedTick)

  function Apply(s: State, w: Write): (r: State)
  {
    match w
    case AppendInterval(e, iv) => s.(intervals := s.intervals[e := IntervalsOf(s, e) + [iv]])
    case AppendSkip(sk) => s.(skipped := s.skipped + [sk])
    case MarkLast(t) => s.(last := Some(t), lastPerEpoch := s.lastPerEpoch[t.epoch := t.tick])
    case ExtendInterval(t) => s.(intervals := s.intervals[t.epoch := Extended(IntervalsOf(s, t.epoch), t.tick)])
  }

  function ApplyAll(s: State, ws: seq<Write>): (r: State)
    decreases |ws|
  {
    if ws == [] then s else ApplyAll(Apply(s, ws[0]), ws[1..])
  }

  lemma {:induction false} ApplyConcat(s: State, a: seq<Write>, b: seq<Write>)
    ensures ApplyAll(s, a + b) == ApplyAll(ApplyAll(s, a), b)
    decreases |a|
  {
    if a == [] {
      assert a + b == b;
    } else {
      assert (a + b)[0] == a[0] && (a + b)[1..] == a[1..] + b;
      ApplyConcat(Apply(s, a[0]), a[1..], b);
    }
  }

  /** The writes about skipped ticks: none when the next tick follows the last one. */
  function SkipWrites(last: ProcessedTick, next: ProcessedTick): (ws: seq<Write>)
  {
    if Distance(next.tick, last.tick) == 1 then []
    else [AppendInterval(next.epoch, Interval(next.tick, next.tick)),
          AppendSkip(Skip(Succ(last.tick), (next.tick - 1) % 0x1_0000_0000))]
  }

  /** All durable writes of one step, in order. */
  function StatusWrites(last: ProcessedTick, next: ProcessedTick): (ws: seq<Write>)
  {
    SkipWrites(last, next) + [MarkLast(next), ExtendInterval(next)]
  }

  function Writes(s: State, info: TickInfo): (ws: seq<Write>)
  {
    StatusWrites(LastProcessed(s, info), Next(s, info))
  }

  /** One uninterrupted step. */
  function Step(s: State, info: TickInfo): (r: State)
  {
    if Due(s, info) then ApplyAll(s, Writes(s, info)) else s
  }

  /** A step stopped after `k` of its writes. */
  function Cut(s: State, info: TickInfo, k: nat): (r: State)
    requires k <= |Writes(s, info)|
  {
    ApplyAll(s, Writes(s, info)[..k])
  }

  /** What the archiver assumes of node reports: 32-bit ticks are not exhausted, and a node that has
      moved past the last processed tick is not in an older epoch. */
  predicate WellFormed(s: State, info: TickInfo)
  {
    && info.tick < MAX_UINT32
    && (s.last.Some? && info.initialTick > s.last.value.tick ==> info.epoch >= s.last.value.epoch)
  }

  /** A step across a gap that stopped early can leave intervals beyond the last processed tick. A later
      report is not behind them: it leads to the same tick again, or beyond it in no older epoch, or stays
      below it in an older epoch. */
  predicate NotBehind(s: State, info: TickInfo)
  {
    forall e, i :: e in s.intervals && 0 <= i < |s.intervals[e]| ==>
      FollowsInterval(LastProcessed(s, info), Next(s, info), e, s.intervals[e][i])
  }

  predicate FollowsInterval(last: ProcessedTick, next: ProcessedTick, epoch: uint32, iv: Interval)
  {
    iv.first > last.tick ==>
      if epoch < next.epoch then iv.last < next.tick
      else if epoch == next.epoch then iv.last <= next.tick
      else next.tick < iv.first
  }

  // ---------- what the stored lists say ----------

  ghost predicate InIntervals(ivs: seq<Interval>, t: int)
  {
    exists i :: 0 <= i < |ivs| && ivs[i].first <= t <= ivs[i].last
  }

  ghost predicate Covered(s: State, epoch: uint32, t: int)
  {
    epoch in s.intervals && InIntervals(s.intervals[epoch], t)
  }

  ghost predicate Skipped(s: State, t: int)
  {
    exists i :: 0 <= i < |s.skipped| && s.skipped[i].start <= t <= s.skipped[i].end
  }

  /** The epochs the interval scan reports, in scan order. */
  ghost function ScannedEpochs(s: State): (es: seq<nat>)
    ensures Increasing(es)
    ensures forall e :: e in es <==> e in s.intervals && e <= MAX_SCANNED_EPOCH
  {
    InOrder(set e | e in s.intervals && e <= MAX_SCANNED_EPOCH)
  }

  datatype EpochIntervals = EpochIntervals(epoch: uint32, intervals: seq<Interval>)

  /** The stored intervals of all epochs, as the interval scan returns them. */
  ghost function AllIntervals(s: State): (r: seq<EpochIntervals>)
    ensures |r| == |ScannedEpochs(s)|
    ensures forall i :: 0 <= i < |r| ==>
              && ScannedEpochs(s)[i] in s.intervals
              && r[i] == EpochIntervals(ScannedEpochs(s)[i], s.intervals[ScannedEpochs(s)[i]])
  {
    var es := ScannedEpochs(s);
    assert forall i :: 0 <= i < |es| ==> es[i] in es;
    seq(|es|, i requires 0 <= i < |es| => EpochIntervals(es[i], s.intervals[es[i]]))
  }

  // ---------- runs ----------

  type History = seq<ProcessedTick>

  /** Some tick of the history carries this number. */
  ghost predicate Processed(h: History, t: int)
  {
    exists i :: 0 <= i < |h| && h[i].tick == t
  }

  ghost predicate HistoryOk(h: History)
  {
    && (forall i :: 0 <= i < |h| ==> 1 <= h[i].tick < MAX_UINT32 && h[i].epoch < 0x1_0000)
    && (forall i, j :: 0 <= i < j < |h| ==> h[i].tick < h[j].tick && h[i].epoch <= h[j].epoch)
  }

  /** One pass of the processing loop: the node's report, and after how many of its durable writes the
      pass stopped. A pass that is not interrupted performs them all. */
  datatype Attempt = Attempt(info: TickInfo, writes: nat)

  const ALL_WRITES: nat := 4

  function Play(s: State, e: Attempt): (r: State)
  {
    if !Due(s, e.info) then s
    else
      var n := |Writes(s, e.info)|;
      Cut(s, e.info, if e.writes < n then e.writes else n)
  }

  /** The pass got as far as the last-tick write, which is the last one but the final interval write. */
  predicate Marks(s: State, e: Attempt)
  {
    Due(s, e.info) && e.writes >= |Writes(s, e.info)| - 1
  }

  type Run = seq<Attempt>

  function Final(run: Run): (s: State)
  {
    if run == [] then EMPTY else Play(Final(run[..|run| - 1]), run[|run| - 1])
  }

  /** Every report of the run is well formed when it arrives. */
  predicate RunOk(run: Run)
  {
    run == []
    || (var s, e := Final(run[..|run| - 1]), run[|run| - 1];
        RunOk(run[..|run| - 1]) && WellFormed(s, e.info) && (Due(s, e.info) ==> NotBehind(s, e.info)))
  }

  /** The ticks whose last-tick write happened, in order. */
  function HistoryOf(run: Run): (h: History)
  {
    if run == [] then []
    else
      var s, e := Final(run[..|run| - 1]), run[|run| - 1];
      HistoryOf(run[..|run| - 1]) + if Marks(s, e) then [Next(s, e.info)] else []
  }

  predicate Uninterrupted(run: Run)
  {
    forall i :: 0 <= i < |run| ==> run[i].writes >= ALL_WRITES
  }

  /** What interruptions leave behind: processed ticks that no interval will ever cover, processed ticks
      that the next interval write will still cover, and ticks that an interval covers although they
      are not processed. */
  datatype Fate = Fate(lost: set<int>, pending: set<int>, stray: set<ProcessedTick>)

  const NO_LOSS: Fate := Fate({}, {}, {})

  function NextFate(s: State, f: Fate, e: Attempt): (r: Fate)
  {
    if !Due(s, e.info) || e.writes == 0 then f
    else
      var last, next := LastProcessed(s, e.info), Next(s, e.info);
      if Distance(next.tick, last.tick) != 1 then
        if Marks(s, e) then Fate(f.lost + f.pending, {}, f.stray - {next})
        else if next.epoch == last.epoch then Fate(f.lost + f.pending, {}, f.stray + {next})
        else Fate(f.lost, f.pending, f.stray + {next})
      else if next.epoch == last.epoch && next.epoch in s.intervals then
        Fate(f.lost, if e.writes >= 2 then {} else f.pending + {next.tick}, f.stray)
      else if e.writes >= 2 || next.epoch in s.intervals then
        Fate(f.lost + f.pending, {}, f.stray - {next})
      else Fate(f.lost + f.pending + {next.tick}, {}, f.stray)
  }

  function FateOf(run: Run): (f: Fate)
  {
    if run == [] then NO_LOSS
    else NextFate(Final(run[..|run| - 1]), FateOf(run[..|run| - 1]), run[|run| - 1])
  }
}
