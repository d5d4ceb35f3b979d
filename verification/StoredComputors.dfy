/** Which list of computors is stored for an epoch: the one that came with the first pass of the epoch that
    got as far as storing it. */
module StoredComputors {
  import opened Bytes
  import opened Progress
  import opened Votes
  import opened QuorumRecords
  import opened Archive
  import opened ArchiveRuns

  /** The pass has something to record in the epoch, and performs at least its first write. */
  predicate Stores(a: Archive, x: Action, e: uint32)
  {
    x.Pass? && Recorded(a, x.report) && x.writes >= 1 && x.report.outcome.value.firstEpoch == e
  }

  ghost predicate StoresAt(k: Codec, run: seq<Action>, p: nat, e: uint32)
    requires p < |run|
  {
    Stores(FinalArchive(k, run[..p]), run[p], e)
  }

  // ---------- what one action does ----------

  /** The first list of an epoch is kept. */
  function WithComputors(a: Archive, v: Validated): (m: map<uint32, seq<string>>)
  {
    if v.firstEpoch as uint32 in a.computors then a.computors else a.computors[v.firstEpoch as uint32 := v.computors]
  }

  lemma FirstWrite(a: Archive, v: Validated)
    ensures StoreComputors(a, v.firstEpoch, v.computors).computors == WithComputors(a, v)
  {}

  lemma RecordsComputors(k: Codec, a: Archive, tick: uint32, v: Validated, n: nat)
    ensures n == 0 ==> RecordsCut(k, a, tick, v, n).computors == a.computors
    ensures n > 0 ==> RecordsCut(k, a, tick, v, n).computors == WithComputors(a, v)
    ensures StoreRecords(k, a, tick, v).computors == WithComputors(a, v)
  {
    FirstWrite(a, v);
    var a1 := StoreComputors(a, v.firstEpoch, v.computors);
    assert StoreQuorum(k, a1, tick, v.votes).computors == a1.computors;
    assert StoreTickData(StoreQuorum(k, a1, tick, v.votes), tick, v.data).computors == a1.computors;
  }

  lemma EmptyCutComputors(a: Archive, epoch: uint32, n: nat)
    ensures EmptyCut(a, epoch, n).computors == a.computors
  {
    assert InitEmpty(a, epoch).computors == a.computors;
  }

  lemma FinishComputors(a: Archive, tick: uint32, v: Validated)
    ensures FinishTick(a, tick, v).0.computors == a.computors
  {
    assert InitEmpty(a, v.firstEpoch).computors == a.computors;
  }

  lemma CutComputors(k: Codec, a: Archive, initialTick: uint32, tick: uint32, v: Validated, n: nat)
    ensures StoreCut(k, a, initialTick, tick, v, n).computors == if n == 0 then a.computors else WithComputors(a, v)
  {
    RecordsComputors(k, a, tick, v, n);
    if n > 4 {
      var a1 := StoreRecords(k, a, tick, v);
      var prev := PrevChainDigest(a1, initialTick, tick);
      if prev.Some? {
        EmptyCutComputors(StoreChain(k, a1, tick, v.votes[0], prev.value), v.firstEpoch, n - 5);
      }
    }
  }

  lemma TickComputors(k: Codec, a: Archive, initialTick: uint32, tick: uint32, v: Validated)
    ensures StoreTick(k, a, initialTick, tick, v).0.computors == WithComputors(a, v)
  {
    RecordsComputors(k, a, tick, v, 4);
    var a1 := StoreRecords(k, a, tick, v);
    var prev := PrevChainDigest(a1, initialTick, tick);
    if prev.Some? {
      FinishComputors(StoreChain(k, a1, tick, v.votes[0], prev.value), tick, v);
    }
  }

  lemma PassComputors(k: Codec, a: Archive, r: Report, n: nat)
    requires Recorded(a, r)
    ensures Process(k, a, r, n).computors == if n == 0 then a.computors else WithComputors(a, r.outcome.value)
  {
    var tick, v := Next(a.progress, r.info).tick, r.outcome.value;
    if n < StoreSize(v) {
      CutComputors(k, a, r.info.initialTick, tick, v, n);
    } else {
      TickComputors(k, a, r.info.initialTick, tick, v);
    }
  }

  /** An action changes the list of an epoch only if it stores one where there was none. */
  lemma ActComputors(k: Codec, a: Archive, x: Action, e: uint32)
    ensures var a' := Act(k, a, x);
            && (e in a'.computors <==> e in a.computors || Stores(a, x, e))
            && (e in a.computors ==> a'.computors[e] == a.computors[e])
            && (e !in a.computors && Stores(a, x, e) ==> a'.computors[e] == x.report.outcome.value.computors)
  {
    if x.Pass? && Recorded(a, x.report) {
      PassComputors(k, a, x.report, x.writes);
    } else {
      IdleAct(k, a, x);
    }
  }

  // ---------- runs ----------

  lemma StoresEarlier(k: Codec, run: seq<Action>, p: nat, e: uint32)
    requires p + 1 < |run|
    ensures StoresAt(k, run, p, e) <==> StoresAt(k, run[..|run| - 1], p, e)
  {
    assert run[..|run| - 1][..p] == run[..p];
  }

  /** After any run, interrupted and restarted anywhere, a list is stored for an epoch exactly if some pass
      has stored one, and it is the list that came with the first such pass. */
  lemma {:induction false} ComputorsOverRuns(k: Codec, run: seq<Action>, e: uint32) returns (p: nat)
    ensures e in FinalArchive(k, run).computors ==>
              && p < |run| && StoresAt(k, run, p, e) && (forall q: nat :: q < p ==> !StoresAt(k, run, q, e))
              && FinalArchive(k, run).computors[e] == run[p].report.outcome.value.computors
    ensures e !in FinalArchive(k, run).computors ==> forall q: nat :: q < |run| ==> !StoresAt(k, run, q, e)
  {
    p := 0;
    if run != [] {
      var before := run[..|run| - 1];
      var q := ComputorsOverRuns(k, before, e);
      ActComputors(k, FinalArchive(k, before), run[|run| - 1], e);
      forall i: nat | i < |before| ensures StoresAt(k, run, i, e) <==> StoresAt(k, before, i, e) {
        StoresEarlier(k, run, i, e);
      }
      p := if e in FinalArchive(k, before).computors then q else |before|;
    }
  }

  /** Every list that came with a pass of the epoch gives the computors' keys. */
  predicate ReportedMatch(k: Codec, run: seq<Action>, e: uint32, keys: seq<Digest>, votes: seq<Vote>)
  {
    forall p :: 0 <= p < |run| && run[p].Pass? && run[p].report.outcome.Some?
                && run[p].report.outcome.value.firstEpoch == e ==>
      IdentitiesMatch(k, run[p].report.outcome.value.computors, keys, votes)
  }

  /** Then so does the stored list. */
  lemma StoredMatch(k: Codec, run: seq<Action>, e: uint32, keys: seq<Digest>, votes: seq<Vote>)
    requires e in FinalArchive(k, run).computors && ReportedMatch(k, run, e, keys, votes)
    ensures IdentitiesMatch(k, FinalArchive(k, run).computors[e], keys, votes)
  {
    var p := ComputorsOverRuns(k, run, e);
  }
}
