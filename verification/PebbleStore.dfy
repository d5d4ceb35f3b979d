/** The archiver as a program: the store that its passes update in place, the processing of one tick,
    the start of the program, and the reads behind the endpoints. Every operation is tied to the state
    machine over archives. The store may stop working at any point, which ends the pass with an error:
    this models failing writes and crashes alike. */
module PebbleStore {
  import opened Bytes
  import opened Wrappers
  import opened Keys
  import opened Progress
  import opened ProgressRuns
  import opened Votes
  import opened QuorumRecords
  import opened Archive
  import opened ArchiveRuns
  import Gate
  import opened EmptyTicks
  import QuorumLookup
  import EpochListing

  /** The next tick never equals the last one, so the check for that never fires. */
  lemma DistanceNotZero(last: ProcessedTick, info: TickInfo)
    ensures Distance(NextTick(last, info).tick, last.tick) != 0
  {
    if info.initialTick <= last.tick && last.tick == MAX_UINT32 {
      assert NextTick(last, info).tick == 0;
    }
  }

  datatype Recalculation = HasCount | Failed | Calculated(found: seq<uint32>)

  class Store {
    var last: Option<ProcessedTick>
    var lastPerEpoch: map<uint32, uint32>
    var intervals: map<uint32, seq<Interval>>
    var skipped: Option<seq<Skip>>
    var quorum: map<uint32, Stored>
    var lastQuorum: map<uint32, map<nat, Full>>
    var tickData: map<uint32, Message>
    var chain: map<uint32, Digest>
    var emptyCount: map<uint32, uint32>
    var emptyList: map<uint32, seq<uint32>>
    var computors: map<uint32, seq<string>>

    /** How many more steps of the current pass the store will perform. */
    var steps: nat

    /** What is stored, as a value. */
    function View(): (a: Archive)
      reads this
    {
      Archive(State(last, lastPerEpoch, intervals, if skipped.None? then [] else skipped.value),
              quorum, lastQuorum, tickData, chain, emptyCount, emptyList, computors)
    }

    constructor ()
      ensures View() == NOTHING
    {
      last, lastPerEpoch, intervals, skipped := None, map[], map[], None;
      quorum, lastQuorum, tickData, chain := map[], map[], map[], map[];
      emptyCount, emptyList, computors, steps := map[], map[], map[], 0;
    }

    /** Asks for one more step. */
    method Proceed() returns (ok: bool)
      modifies this`steps
      ensures ok == (old(steps) > 0) && steps == if ok then old(steps) - 1 else 0
    {
      ok := steps > 0;
      if ok {
        steps := steps - 1;
      }
    }

    // ---------- progress ----------

    method GetProcessedTickIntervalsPerEpoch(epoch: uint32) returns (ivs: seq<Interval>)
      ensures ivs == IntervalsOf(View().progress, epoch)
    {
      ivs := if epoch in intervals then intervals[epoch] else [];
    }

    /** The batch with both last-tick records, and after it the interval write. */
    method SetLastProcessedTick(t: ProcessedTick) returns (ok: bool)
      modifies this
      ensures var writes := [MarkLast(t), ExtendInterval(t)];
              && View() == old(View()).(progress := ApplyAll(old(View()).progress, FirstOf(writes, old(steps))))
              && ok == (old(steps) >= 2) && steps == StepsLeft(old(steps), 2)
    {
      ghost var p := View().progress;
      ApplyOne(p, MarkLast(t));
      ApplyTwo(p, MarkLast(t), ExtendInterval(t));
      ok := Proceed();
      if !ok {
        return;
      }
      lastPerEpoch, last := lastPerEpoch[t.epoch := t.tick], Some(t);
      assert View().progress == Apply(p, MarkLast(t));
      ok := ExtendNewestInterval(t);
    }

    /** The interval write. */
    method ExtendNewestInterval(t: ProcessedTick) returns (ok: bool)
      modifies this
      ensures ok == (old(steps) >= 1) && steps == StepsLeft(old(steps), 1)
      ensures View() == if ok then old(View()).(progress := Apply(old(View()).progress, ExtendInterval(t)))
              else old(View())
    {
      ok := Proceed();
      if !ok {
        return;
      }
      var ivs := GetProcessedTickIntervalsPerEpoch(t.epoch);
      if |ivs| == 0 {
        ivs := [Interval(t.tick, t.tick)];
      } else {
        ivs := ivs[|ivs| - 1 := ivs[|ivs| - 1].(last := t.tick)];
      }
      intervals := intervals[t.epoch := ivs];
    }

    method AppendProcessedTickInterval(epoch: uint32, iv: Interval) returns (ok: bool)
      modifies this
      ensures ok == (old(steps) >= 1) && steps == StepsLeft(old(steps), 1)
      ensures View() == if ok then old(View()).(progress := Apply(old(View()).progress, AppendInterval(epoch, iv)))
              else old(View())
    {
      ok := Proceed();
      if ok {
        var existing := GetProcessedTickIntervalsPerEpoch(epoch);
        intervals := intervals[epoch := existing + [iv]];
      }
    }

    method SetSkippedTicksInterval(skip: Skip) returns (ok: bool)
      modifies this
      ensures ok == (old(steps) >= 1) && steps == StepsLeft(old(steps), 1)
      ensures View() == if ok then old(View()).(progress := Apply(old(View()).progress, AppendSkip(skip)))
              else old(View())
    {
      ok := Proceed();
      if ok {
        var list := if skipped.None? then [] else skipped.value;
        skipped := Some(list + [skip]);
      }
    }

    /** The scan of the interval table, in the order of its byte keys. */
    method GetProcessedTickIntervals() returns (r: seq<EpochIntervals>)
      ensures r == AllIntervals(View().progress)
    {
      var lower, upper := [INTERVALS_TAG], [INTERVALS_TAG] + MAX_UINT64_TEXT;
      var rest := set e | e in intervals && AtMost(lower, EpochKey(INTERVALS_TAG, e))
        && Less(EpochKey(INTERVALS_TAG, e), upper);
      r := [];
      ghost var es: seq<nat> := [];
      ghost var all := rest;
      while rest != {}
        invariant rest <= all
        invariant |r| == |es|
        invariant forall i :: 0 <= i < |es| ==> es[i] in intervals && r[i] == EpochIntervals(es[i], intervals[es[i]])
        invariant Increasing(es)
        invariant forall i, e :: 0 <= i < |es| && e in rest ==> es[i] < e
        invariant forall e: nat :: e in es <==> e in all && e !in rest
        decreases |rest|
      {
        LeastKeyExists(rest);
        var e :| e in rest && forall x :: x in rest ==> AtMost(EpochKey(INTERVALS_TAG, e), EpochKey(INTERVALS_TAG, x));
        LeastIsFirst(rest, e);
        rest := rest - {e};
        r, es := r + [EpochIntervals(e, intervals[e])], es + [e];
      }
      ScanIsAllIntervals(View().progress, all, es, r);
    }

    /** The last-tick records of all epochs that the scan of their table reaches. */
    method GetLastProcessedTicksPerEpoch() returns (r: map<uint32, uint32>)
      ensures r.Keys == RecordedEpochs(View())
      ensures forall e :: e in r ==> r[e] == lastPerEpoch[e]
    {
      var lower, upper := [LAST_TICK_TAG], [LAST_TICK_TAG] + MAX_UINT64_TEXT;
      r := map e | e in lastPerEpoch && AtMost(lower, EpochKey(LAST_TICK_TAG, e))
        && Less(EpochKey(LAST_TICK_TAG, e), upper) :: lastPerEpoch[e];
      forall e: uint32
        ensures AtMost(lower, EpochKey(LAST_TICK_TAG, e)) && Less(EpochKey(LAST_TICK_TAG, e), upper)
                <==> e <= MAX_SCANNED_EPOCH
      {
        EpochKeyInBounds(LAST_TICK_TAG, e);
      }
    }

    // ---------- votes, tick data, chain ----------

    method SetQuorumDataForCurrentEpochInterval(epoch: uint32, full: Full)
      modifies this
      ensures steps == old(steps)
      ensures View() == old(View()).(lastQuorum := old(View()).lastQuorum[
                epoch := LastQuorumOf(old(View()), epoch)[IntervalIndex(old(View()).progress, epoch) := full]])
    {
      var processed := GetProcessedTickIntervalsPerEpoch(epoch);
      var index: int := |processed| - 1;
      if index < 0 {
        index := 0;
      }
      var perInterval := if epoch in lastQuorum then lastQuorum[epoch] else map[];
      perInterval := perInterval[index := full];
      lastQuorum := lastQuorum[epoch := perInterval];
    }

    /** The compressed record, and then the entry of the current interval. */
    method StoreVotes(k: Codec, tick: uint32, votes: Ballot) returns (ok: bool)
      modifies this
      ensures ok == (old(steps) >= 2) && steps == StepsLeft(old(steps), 2)
      ensures View() == if old(steps) == 0 then old(View())
                        else if old(steps) == 1 then
                          old(View()).(quorum := old(View()).quorum[tick := StoredOf(k, votes)])
                        else StoreQuorum(k, old(View()), tick, votes)
    {
      ok := Proceed();
      if !ok {
        return;
      }
      var stored := QubicToProtoStored(k, votes);
      quorum := quorum[tick := stored];
      ok := Proceed();
      if !ok {
        return;
      }
      var full := QubicToProto(k, votes);
      SetQuorumDataForCurrentEpochInterval(full.structure.epoch, full);
    }

    /** Continues the chain; fails if the previous digest is not stored. */
    method ComputeAndSave(k: Codec, initialTick: uint32, tick: uint32, vote: Vote) returns (ok: bool)
      modifies this
      ensures match PrevChainDigest(old(View()), initialTick, tick)
              case None => !ok && View() == old(View()) && steps == old(steps)
              case Some(prev) =>
                && ok == (old(steps) >= 1) && steps == StepsLeft(old(steps), 1)
                && View() == if ok then StoreChain(k, old(View()), tick, vote, prev) else old(View())
    {
      var prev := ZeroDigest();
      if tick != initialTick {
        if Pred(tick) !in chain {
          return false;
        }
        prev := chain[Pred(tick)];
      }
      ok := Proceed();
      if ok {
        chain := chain[tick := LinkDigest(k, vote, prev)];
      }
    }

    // ---------- empty ticks ----------

    method AppendEmptyTickToEmptyTickListPerEpoch(epoch: uint32, tick: uint32) returns (ok: bool)
      modifies this
      ensures epoch !in old(View()).emptyList ==> !ok && View() == old(View()) && steps == old(steps)
      ensures epoch in old(View()).emptyList ==>
                && ok == (old(steps) >= 1) && steps == StepsLeft(old(steps), 1)
                && View() == if ok then AppendEmpty(old(View()), epoch, tick) else old(View())
    {
      if epoch !in emptyList {
        return false;
      }
      ok := Proceed();
      if ok {
        emptyList := emptyList[epoch := emptyList[epoch] + [tick]];
      }
    }

    /** The bookkeeping of an empty tick. */
    method RecordEmptyTick(epoch: uint32, tick: uint32) returns (ok: bool)
      modifies this
      ensures old(steps) < 3 ==> !ok && View() == EmptyCut(old(View()), epoch, old(steps))
      ensures old(steps) >= 3 ==>
                && ok == ListUsable(old(View()), epoch)
                && View() == (if ok then StoreEmpty(old(View()), epoch, tick) else CountEmpty(old(View()), epoch))
                && (ok ==> steps == old(steps) - 3)
    {
      ok := Proceed();
      if !ok {
        return;
      }
      var count: uint32 := if epoch in emptyCount then emptyCount[epoch] else 0;
      if count == 0 {
        emptyList := emptyList[epoch := []];
      }
      assert View() == InitEmpty(old(View()), epoch);
      ok := Proceed();
      if !ok {
        return;
      }
      count := Succ(count);
      emptyCount := emptyCount[epoch := count];
      assert View() == CountEmpty(InitEmpty(old(View()), epoch), epoch);
      ok := AppendEmptyTickToEmptyTickListPerEpoch(epoch, tick);
    }

    method CalculateEmptyTicksForEpoch(epoch: uint32) returns (r: Option<seq<uint32>>)
      ensures r == Calculate(View(), epoch)
    {
      var all := GetProcessedTickIntervals();
      var ivs := Gate.GetProcessedTickIntervalsForEpoch(epoch, all);
      if ivs.None? {
        return Some([]);
      }
      r := EmptyTicksOfIntervals(tickData, ivs.value);
    }

    /** Recomputes the caches of one epoch unless it has a count. */
    method CalculateMissingEpoch(epoch: uint32) returns (r: Recalculation)
      modifies this
      ensures match r
              case HasCount => epoch in old(View()).emptyCount && View() == old(View())
              case Failed => Calculate(old(View()), epoch).None? && View() == old(View())
              case Calculated(found) =>
                && epoch !in old(View()).emptyCount && Calculate(old(View()), epoch) == Some(found)
                && View() == SetCache(old(View()), epoch, found)
    {
      if epoch in emptyCount {
        return HasCount;
      }
      var found := CalculateEmptyTicksForEpoch(epoch);
      if found.None? {
        return Failed;
      }
      emptyCount := emptyCount[epoch := |found.value| % 0x1_0000_0000];
      emptyList := emptyList[epoch := found.value];
      r := Calculated(found.value);
    }

    /** Recomputes the caches, epoch by epoch in the arbitrary order of a hash map, until an epoch has a
        count; fails if an epoch cannot be recomputed. */
    method CalculateEmptyTicksForAllEpochs() returns (ok: bool, ghost done: set<uint32>)
      modifies this
      ensures ok ==> MayRecalculate(old(View()), done) && View() == Recalculate(old(View()), done)
      ensures !ok ==> exists e: uint32 :: Calculate(old(View()), e).None?
    {
      ghost var a := View();
      done := {};
      NothingRecalculated(a);
      var epochs := GetLastProcessedTicksPerEpoch();
      var rest := epochs.Keys;
      while rest != {}
        invariant RecalculatedBut(a, View(), done, rest)
        decreases |rest|
      {
        var epoch :| epoch in rest;
        ghost var before := View();
        var r := CalculateMissingEpoch(epoch);
        EpochVisited(a, before, View(), done, rest, epoch, r);
        if !r.Calculated? {
          return r.HasCount?, done;
        }
        rest := rest - {epoch};
        done := done + {epoch};
      }
      ok := true;
    }

    method ResetEmptyTicksForAllEpochs()
      modifies this
      ensures View() == Reset(old(View()))
    {
      var epochs := GetLastProcessedTicksPerEpoch();
      ghost var all := epochs.Keys;
      var rest := epochs.Keys;
      while rest != {}
        invariant rest <= all
        invariant View() == old(View()).(emptyCount := old(emptyCount) - (all - rest),
                                         emptyList := old(emptyList) - (all - rest))
        decreases |rest|
      {
        var epoch :| epoch in rest;
        rest := rest - {epoch};
        emptyCount := emptyCount - {epoch};
        emptyList := emptyList - {epoch};
        assert old(emptyCount) - (all - rest) == emptyCount;
        assert old(emptyList) - (all - rest) == emptyList;
      }
      assert all - rest == all;
    }

    /** A start of the program: an optional reset, and the recalculation. */
    method Startup(reset: bool) returns (ok: bool, ghost done: set<uint32>)
      modifies this
      ensures ok ==> ActionOk(old(View()), Start(reset, done))
                     && View() == Recalculate(BeforeRecalculation(old(View()), reset), done)
      ensures !ok ==> exists e: uint32 :: Calculate(old(View()), e).None?
    {
      ghost var a := View();
      if reset {
        ResetEmptyTicksForAllEpochs();
      }
      ok, done := CalculateEmptyTicksForAllEpochs();
      if !ok {
        FailedBefore(a, BeforeRecalculation(a, reset));
      }
    }

    // ---------- reads ----------

    method CheckTickWithinArchiverIntervals(tick: uint32) returns (v: Gate.Verdict)
      ensures v == Gate.Check(View().progress, tick)
    {
      if last.None? {
        return Gate.Internal;
      }
      if tick > last.value.tick {
        return Gate.TooNew(last.value.tick);
      }
      var all := GetProcessedTickIntervals();
      var skipped, next := Gate.WasSkippedByArchive(tick, all);
      if skipped {
        return Gate.WasSkipped(next);
      }
      v := Gate.Accepted;
    }

    method GetQuorumTickData(k: Codec, tick: uint32) returns (r: QuorumLookup.Answer)
      ensures r == QuorumLookup.GetQuorumTickData(QuorumLookup.RebuildWith(k), View(), tick)
    {
      if last.None? {
        return QuorumLookup.NothingProcessed;
      }
      if tick > last.value.tick {
        return QuorumLookup.TooNew(last.value.tick);
      }
      var all := GetProcessedTickIntervals();
      var epoch := Gate.GetTickEpoch(tick, all);
      if epoch.None? {
        return QuorumLookup.UnknownEpoch;
      }
      var end := Gate.IsTickLastInAnyEpochInterval(tick, epoch.value, all);
      if end.Err? {
        return QuorumLookup.UnknownEpoch;
      }
      if end.value.Some? {
        var kept := if epoch.value in lastQuorum then lastQuorum[epoch.value] else map[];
        return QuorumLookup.KeptVotes(if end.value.value in kept then Some(kept[end.value.value]) else None);
      }
      var skipped, next := Gate.WasSkippedByArchive(tick, all);
      if skipped {
        return QuorumLookup.Answer.Skipped(next);
      }
      if tick == last.value.tick {
        return if tick in quorum then QuorumLookup.Partial(quorum[tick]) else QuorumLookup.MissingRecord;
      }
      r := RebuildVotes(k, tick);
    }

    /** The listing of an epoch's ticks. It terminates because no interval reaches the largest 32-bit
        number. */
    method GetEpochTickList(epoch: uint32, page: EpochListing.int32, size: EpochListing.int32, desc: bool)
      returns (r: Result<EpochListing.Page<EpochListing.TickStatus>, EpochListing.ListError>)
      requires forall e, i :: e in intervals && 0 <= i < |intervals[e]| ==> intervals[e][i].last < MAX_UINT32
      ensures EpochListing.EpochAnswer(View(), epoch, page, size, desc, r)
    {
      var all := GetProcessedTickIntervals();
      ScannedApart(View().progress);
      var answer, list := EpochListing.GetEpochTickList(all, emptyList, epoch, page, size, desc);
      r := answer;
    }

    method RebuildVotes(k: Codec, tick: uint32) returns (r: QuorumLookup.Answer)
      ensures r == QuorumLookup.FromRecords(QuorumLookup.RebuildWith(k), View(), tick)
    {
      if Succ(tick) !in quorum || tick !in quorum {
        return QuorumLookup.MissingRecord;
      }
      var current := quorum[tick];
      if current.structure.epoch !in computors {
        return QuorumLookup.MissingRecord;
      }
      var identities := computors[current.structure.epoch];
      if !KnownComputors(current, identities) {
        return QuorumLookup.MissingRecord;
      }
      var full := ReconstructQuorumData(k, current, quorum[Succ(tick)], identities);
      r := if full.None? then QuorumLookup.Undecodable else QuorumLookup.RebuiltVotes(full.value);
    }

    // ---------- one tick ----------

    /** The records of a tick, in the order in which they are written. */
    method StoreRecordsInOrder(k: Codec, tick: uint32, v: Validated) returns (ok: bool)
      modifies this
      ensures ok == (old(steps) >= 4) && steps == StepsLeft(old(steps), 4)
      ensures View() == RecordsCut(k, old(View()), tick, v, old(steps))
    {
      ok := Proceed();
      if !ok {
        return;
      }
      if v.firstEpoch !in computors {
        computors := computors[v.firstEpoch := v.computors];
      }
      assert View() == StoreComputors(old(View()), v.firstEpoch, v.computors);
      ok := StoreVotes(k, tick, v.votes);
      if !ok {
        return;
      }
      ok := Proceed();
      if ok {
        tickData := tickData[tick := if v.data.None? then EMPTY_MESSAGE else v.data.value];
      }
    }

    /** The writes for a tick whose votes, data and transactions were validated. */
    method ValidateTick(k: Codec, initialTick: uint32, tick: uint32, v: Validated) returns (ok: bool)
      modifies this
      ensures old(steps) < StoreSize(v) ==> !ok && View() == StoreCut(k, old(View()), initialTick, tick, v, old(steps))
      ensures old(steps) >= StoreSize(v) ==>
                && (View(), ok) == StoreTick(k, old(View()), initialTick, tick, v)
                && (ok ==> steps == old(steps) - StoreSize(v))
    {
      ok := StoreRecordsInOrder(k, tick, v);
      if !ok {
        return;
      }
      assert View() == StoreRecords(k, old(View()), tick, v);
      ok := ComputeAndSave(k, initialTick, tick, v.votes[0]);
      if ok && (v.data.None? || v.data.value == EMPTY_MESSAGE) {
        ok := RecordEmptyTick(v.firstEpoch, tick);
      }
    }

    method ProcessSkippedTicks(lastTick: ProcessedTick, next: ProcessedTick) returns (ok: bool)
      modifies this
      ensures Distance(next.tick, lastTick.tick) == 0 ==> !ok && View() == old(View())
      ensures var writes := SkipWrites(lastTick, next);
              Distance(next.tick, lastTick.tick) != 0 ==>
                && View() == old(View()).(progress := ApplyAll(old(View()).progress, FirstOf(writes, old(steps))))
                && ok == (old(steps) >= |writes|) && steps == StepsLeft(old(steps), |writes|)
    {
      if Distance(next.tick, lastTick.tick) == 1 {
        return true;
      }
      if Distance(next.tick, lastTick.tick) == 0 {
        return false;
      }
      ghost var p := View().progress;
      ghost var writes := SkipWrites(lastTick, next);
      ApplyOne(p, writes[0]);
      ApplyTwo(p, writes[0], writes[1]);
      ok := AppendProcessedTickInterval(next.epoch, Interval(next.tick, next.tick));
      if ok {
        ok := SetSkippedTicksInterval(Skip(Succ(lastTick.tick), Pred(next.tick)));
      }
    }

    method ProcessStatus(lastTick: ProcessedTick, next: ProcessedTick) returns (ok: bool)
      modifies this
      ensures Distance(next.tick, lastTick.tick) == 0 ==> !ok && View() == old(View())
      ensures var writes := StatusWrites(lastTick, next);
              Distance(next.tick, lastTick.tick) != 0 ==>
                && View() == old(View()).(progress := ApplyAll(old(View()).progress, FirstOf(writes, old(steps))))
                && ok == (old(steps) >= |writes|)
    {
      ghost var n, skips, marks := steps, SkipWrites(lastTick, next), [MarkLast(next), ExtendInterval(next)];
      ok := ProcessSkippedTicks(lastTick, next);
      FirstOfConcat(View().progress, skips, marks, n);
      if ok {
        ok := SetLastProcessedTick(next);
        ApplyConcat(old(View()).progress, skips, FirstOf(marks, StepsLeft(n, |skips|)));
      }
    }

    /** One pass of the processing loop: the node's report, then the validated tick if there is one. */
    method ProcessOneByOne(k: Codec, r: Report) returns (ok: bool)
      modifies this
      ensures View() == Process(k, old(View()), r, old(steps))
      ensures ok ==> Completes(k, old(View()), r, old(steps))
    {
      var lastTick := if last.None? then ProcessedTick(0, r.info.epoch) else last.value;
      var next := NextTick(lastTick, r.info);
      if r.info.tick < next.tick {
        return false;
      }
      if r.outcome.None? {
        return false;
      }
      ProcessIs(k, View(), r, steps);
      ok := ValidateTick(k, r.info.initialTick, next.tick, r.outcome.value);
      if ok {
        DistanceNotZero(lastTick, r.info);
        ok := ProcessStatus(lastTick, next);
      }
    }
  }

  function StepsLeft(n: nat, used: nat): (r: nat)
  {
    if n >= used then n - used else 0
  }

  function FirstOf<T>(s: seq<T>, n: nat): (r: seq<T>)
  {
    if n < |s| then s[..n] else s
  }

  /** What a list of writes does if only the first few of them happen. */
  lemma FirstOfConcat(s: State, a: seq<Write>, b: seq<Write>, n: nat)
    ensures FirstOf(a + b, n) == if n < |a| then FirstOf(a, n) else a + FirstOf(b, n - |a|)
  {}

  /** A command to the program: a report to process, with the number of steps that the store performs
      for it, or a restart. */
  datatype Command = Handle(report: Report, steps: nat) | Restart(reset: bool)

  /** The action is what the command asks for; which epochs a restart recomputes is up to the program. */
  predicate Obeys(c: Command, x: Action)
  {
    match c
    case Handle(r, n) => x == Pass(r, n)
    case Restart(reset) => x.Start? && x.reset == reset
  }

  ghost predicate ObeysAll(commands: seq<Command>, run: seq<Action>)
  {
    |run| == |commands| && forall i :: 0 <= i < |run| ==> Obeys(commands[i], run[i])
  }

  /** The reports arrive well formed, whatever the program has made of the commands before them, and
      recalculation is possible when the program restarts, which `Restarts.CanAlwaysStart` proves if no
      report is behind an earlier one. */
  ghost predicate CommandsOk(k: Codec, commands: seq<Command>)
  {
    forall run, i :: 0 <= i < |commands| && ActionsOk(k, run) && ObeysAll(commands[..i], run) ==>
      CommandOk(FinalArchive(k, run), commands[i])
  }

  ghost predicate CommandOk(a: Archive, c: Command)
  {
    match c
    case Handle(r, _) => ReportOk(a, r)
    case Restart(_) => forall e: uint32 :: Calculate(a, e).Some?
  }

  /** The program over any commands, interrupted and restarted anywhere: it ends in a state that the state
      machine reaches, so everything proved of runs holds of the store. */
  method ProcessAll(k: Codec, commands: seq<Command>) returns (store: Store, ghost run: seq<Action>)
    requires CommandsOk(k, commands)
    ensures fresh(store) && ActionsOk(k, run) && ObeysAll(commands, run) && store.View() == FinalArchive(k, run)
  {
    store := new Store();
    run := [];
    for i := 0 to |commands|
      invariant fresh(store) && ActionsOk(k, run) && ObeysAll(commands[..i], run)
                && store.View() == FinalArchive(k, run)
    {
      assert CommandOk(FinalArchive(k, run), commands[i]);
      ghost var x;
      match commands[i] {
        case Handle(r, n) =>
          store.steps := n;
          var ok := store.ProcessOneByOne(k, r);
          x := Pass(r, n);
        case Restart(reset) =>
          var ok, done := store.Startup(reset);
          x := Start(reset, done);
      }
      RunSnoc(k, run, x);
      ObeysSnoc(commands, i, run, x);
      run := run + [x];
    }
    assert commands[..|commands|] == commands;
  }

  lemma ObeysSnoc(commands: seq<Command>, i: nat, run: seq<Action>, x: Action)
    requires i < |commands| && ObeysAll(commands[..i], run) && Obeys(commands[i], x)
    ensures ObeysAll(commands[..i + 1], run + [x])
  {
    assert |run| == i;
    forall j | 0 <= j < i + 1 ensures Obeys(commands[..i + 1][j], (run + [x])[j]) {
      if j < i {
        assert Obeys(commands[..i][j], run[j]);
      }
    }
  }

  /** The caches of one epoch, recomputed. */
  function SetCache(a: Archive, epoch: uint32, found: seq<uint32>): (r: Archive)
  {
    a.(emptyCount := a.emptyCount[epoch := |found| % 0x1_0000_0000], emptyList := a.emptyList[epoch := found])
  }

  /** The caches of these epochs are recomputed; the others of the recorded epochs are to be visited. */
  ghost predicate RecalculatedBut(a: Archive, a': Archive, done: set<uint32>, rest: set<uint32>)
  {
    && done !! rest && done + rest == RecordedEpochs(a) && a' == Recalculate(a, done)
    && (forall e :: e in done ==> e !in a.emptyCount && Calculate(a, e).Some?)
  }

  /** What visiting one more epoch establishes. */
  lemma EpochVisited(a: Archive, before: Archive, after: Archive, done: set<uint32>, rest: set<uint32>, epoch: uint32,
                     r: Recalculation)
    requires RecalculatedBut(a, before, done, rest) && epoch in rest
    requires match r
             case HasCount => epoch in before.emptyCount && after == before
             case Failed => Calculate(before, epoch).None? && after == before
             case Calculated(found) =>
               epoch !in before.emptyCount && Calculate(before, epoch) == Some(found)
                 && after == SetCache(before, epoch, found)
    ensures match r
            case HasCount => MayRecalculate(a, done) && after == Recalculate(a, done)
            case Failed => Calculate(a, epoch).None?
            case Calculated(found) => RecalculatedBut(a, after, done + {epoch}, rest - {epoch})
  {
    match r
    case HasCount => StoppedAtCount(a, done, rest, epoch);
    case Failed => CalculateIgnoresCaches(a, before, epoch);
    case Calculated(found) =>
      CalculateIgnoresCaches(a, before, epoch);
      OneMoreDone(a, before, done, rest, epoch, found);
  }

  lemma OneMoreDone(a: Archive, before: Archive, done: set<uint32>, rest: set<uint32>, epoch: uint32,
                    found: seq<uint32>)
    requires RecalculatedBut(a, before, done, rest) && epoch in rest
    requires epoch !in before.emptyCount && Calculate(a, epoch) == Some(found)
    ensures RecalculatedBut(a, SetCache(before, epoch, found), done + {epoch}, rest - {epoch})
  {
    RecalculateOne(a, done, epoch, found);
    SetsMove(done, rest, epoch);
    NoCountBefore(a, done, epoch);
    CountsMove(a, done, epoch, found);
  }

  lemma SetsMove(done: set<uint32>, rest: set<uint32>, epoch: uint32)
    requires done !! rest && epoch in rest
    ensures (done + {epoch}) !! (rest - {epoch}) && (done + {epoch}) + (rest - {epoch}) == done + rest
  {}

  lemma NoCountBefore(a: Archive, done: set<uint32>, epoch: uint32)
    requires epoch !in Recalculate(a, done).emptyCount
    ensures epoch !in a.emptyCount
  {}

  lemma CountsMove(a: Archive, done: set<uint32>, epoch: uint32, found: seq<uint32>)
    requires forall e :: e in done ==> e !in a.emptyCount && Calculate(a, e).Some?
    requires epoch !in a.emptyCount && Calculate(a, epoch) == Some(found)
    ensures forall e :: e in done + {epoch} ==> e !in a.emptyCount && Calculate(a, e).Some?
  {}

  lemma StoppedAtCount(a: Archive, done: set<uint32>, rest: set<uint32>, epoch: uint32)
    requires RecalculatedBut(a, Recalculate(a, done), done, rest) && epoch in rest
    requires epoch in Recalculate(a, done).emptyCount
    ensures MayRecalculate(a, done)
  {
    assert epoch in a.emptyCount && epoch in RecordedEpochs(a);
  }

  lemma SetOneMore<V>(m: map<uint32, V>, done: set<uint32>, f: uint32 -> V, epoch: uint32)
    ensures SetAll(m, done + {epoch}, f) == SetAll(m, done, f)[epoch := f(epoch)]
  {}

  lemma RecalculateOne(a: Archive, done: set<uint32>, epoch: uint32, found: seq<uint32>)
    requires Calculate(a, epoch) == Some(found)
    ensures Recalculate(a, done + {epoch}) == SetCache(Recalculate(a, done), epoch, found)
  {
    var counts := (e: uint32) => (|Found(a, e)| % 0x1_0000_0000) as uint32;
    var lists := (e: uint32) => Found(a, e);
    FoundIs(a, a, epoch, found);
    assert counts(epoch) == |found| % 0x1_0000_0000 && lists(epoch) == found;
    SetOneMore(a.emptyCount, done, counts, epoch);
    SetOneMore(a.emptyList, done, lists, epoch);
  }

  lemma NothingRecalculated(a: Archive)
    ensures RecalculatedBut(a, a, {}, RecordedEpochs(a))
  {
    assert SetAll(a.emptyCount, {}, (e: uint32) => (|Found(a, e)| % 0x1_0000_0000) as uint32) == a.emptyCount;
    assert Recalculate(a, {}).emptyCount == a.emptyCount && Recalculate(a, {}).emptyList == a.emptyList;
  }

  lemma FailedBefore(a: Archive, b: Archive)
    requires b.progress == a.progress && b.tickData == a.tickData && exists e: uint32 :: Calculate(b, e).None?
    ensures exists e: uint32 :: Calculate(a, e).None?
  {
    var e: uint32 :| Calculate(b, e).None?;
    CalculateIgnoresCaches(a, b, e);
    assert Calculate(a, e).None?;
  }

  /** A pass in terms of its two parts. */
  lemma ProcessIs(k: Codec, a: Archive, r: Report, n: nat)
    requires Recorded(a, r)
    ensures var last, next, v := LastProcessed(a.progress, r.info), Next(a.progress, r.info), r.outcome.value;
            n >= StoreSize(v) ==>
              var (a1, ok) := StoreTick(k, a, r.info.initialTick, next.tick, v);
              var writes := StatusWrites(last, next);
              && a1.progress == a.progress
              && Process(k, a, r, n)
                 == (if ok then a1.(progress := ApplyAll(a1.progress, FirstOf(writes, n - StoreSize(v)))) else a1)
              && (Completes(k, a, r, n) <==> ok && n - StoreSize(v) >= |writes| - 1)
  {
    StoreKeepsProgress(k, a, r.info.initialTick, Next(a.progress, r.info).tick, r.outcome.value);
    var writes := Writes(a.progress, r.info);
    assert writes[..|writes|] == writes;
  }

  lemma StoreKeepsProgress(k: Codec, a: Archive, initialTick: uint32, tick: uint32, v: Validated)
    ensures StoreTick(k, a, initialTick, tick, v).0.progress == a.progress
  {
    RecordsAreCut(k, a, tick, v);
    var a1 := StoreRecords(k, a, tick, v);
    var prev := PrevChainDigest(a1, initialTick, tick);
    if prev.Some? {
      FinishKeepsProgress(StoreChain(k, a1, tick, v.votes[0], prev.value), tick, v);
    }
  }

  lemma FinishKeepsProgress(a: Archive, tick: uint32, v: Validated)
    ensures FinishTick(a, tick, v).0.progress == a.progress
  {}

  /** The scan reports every epoch once, with its stored intervals. */
  lemma ScannedApart(s: State)
    ensures var all := AllIntervals(s);
            && (forall i, j :: 0 <= i < j < |all| ==> all[i].epoch != all[j].epoch)
            && (forall i :: 0 <= i < |all| ==>
                  all[i].epoch in s.intervals && all[i].intervals == s.intervals[all[i].epoch])
  {
    var all, es := AllIntervals(s), ScannedEpochs(s);
    forall i, j | 0 <= i < j < |all| ensures all[i].epoch != all[j].epoch {
      assert es[i] < es[j];
    }
  }

  lemma LeastKeyExists(rest: set<uint32>)
    requires rest != {}
    ensures exists e :: e in rest && forall x :: x in rest ==>
              AtMost(EpochKey(INTERVALS_TAG, e), EpochKey(INTERVALS_TAG, x))
  {
    SmallestExists(rest);
    var e: nat :| IsSmallest(e, rest);
    assert e in rest;
    forall x | x in rest ensures AtMost(EpochKey(INTERVALS_TAG, e), EpochKey(INTERVALS_TAG, x)) {
      if x != e {
        EpochKeyOrder(INTERVALS_TAG, e, x);
      }
    }
  }

  lemma LeastIsFirst(rest: set<uint32>, e: uint32)
    requires forall x :: x in rest ==> AtMost(EpochKey(INTERVALS_TAG, e), EpochKey(INTERVALS_TAG, x))
    ensures forall x :: x in rest && x != e ==> e < x
  {
    forall x | x in rest && x != e ensures e < x {
      KeyOrderIsEpochOrder(e, x);
    }
  }

  lemma KeyOrderIsEpochOrder(d: uint32, e: uint32)
    requires AtMost(EpochKey(INTERVALS_TAG, d), EpochKey(INTERVALS_TAG, e)) && d != e
    ensures d < e
  {
    EpochKeyOrder(INTERVALS_TAG, d, e);
    EpochKeyOrder(INTERVALS_TAG, e, d);
  }

  lemma ScanIsAllIntervals(s: State, all: set<uint32>, es: seq<nat>, r: seq<EpochIntervals>)
    requires all == set e | e in s.intervals && AtMost([INTERVALS_TAG], EpochKey(INTERVALS_TAG, e))
             && Less(EpochKey(INTERVALS_TAG, e), [INTERVALS_TAG] + MAX_UINT64_TEXT)
    requires Increasing(es) && forall e: nat :: e in es <==> e in all
    requires |r| == |es| && forall i :: 0 <= i < |es| ==>
               es[i] in s.intervals && r[i] == EpochIntervals(es[i], s.intervals[es[i]])
    ensures r == AllIntervals(s)
  {
    forall e: uint32
      ensures && AtMost([INTERVALS_TAG], EpochKey(INTERVALS_TAG, e))
              && Less(EpochKey(INTERVALS_TAG, e), [INTERVALS_TAG] + MAX_UINT64_TEXT)
              <==> e <= MAX_SCANNED_EPOCH
    {
      EpochKeyInBounds(INTERVALS_TAG, e);
    }
    IncreasingUnique(es, ScannedEpochs(s));
  }
}
