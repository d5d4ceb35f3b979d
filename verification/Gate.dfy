/** Interval lookups and the request gate: which ticks the archiver answers for, decided from the
    stored intervals alone. */
module Gate {
  import opened Bytes
  import opened Wrappers
  import opened Keys
  import opened Progress
  import opened RunInvariant

  datatype Tagged = Tagged(epoch: uint32, interval: Interval)

  function Tag(e: EpochIntervals): (r: seq<Tagged>)
    ensures |r| == |e.intervals| && forall i :: 0 <= i < |r| ==> r[i] == Tagged(e.epoch, e.intervals[i])
  {
    seq(|e.intervals|, i requires 0 <= i < |e.intervals| => Tagged(e.epoch, e.intervals[i]))
  }

  /** All intervals in scan order. */
  function Flat(all: seq<EpochIntervals>): (r: seq<Tagged>)
  {
    if all == [] then [] else Tag(all[0]) + Flat(all[1..])
  }

  /** The start of the first interval beyond `t`, unless `t` lies in an interval met before it. */
  function FirstBeyond(ivs: seq<Tagged>, t: uint32): (r: Option<uint32>)
  {
    if ivs == [] then None
    else if t < ivs[0].interval.first then Some(ivs[0].interval.first)
    else if t <= ivs[0].interval.last then None
    else FirstBeyond(ivs[1..], t)
  }

  /** The epoch of the first interval that contains `t`. */
  function FirstEpoch(ivs: seq<Tagged>, t: uint32): (r: Option<uint32>)
  {
    if ivs == [] then None
    else if ivs[0].interval.first <= t <= ivs[0].interval.last then Some(ivs[0].epoch)
    else FirstEpoch(ivs[1..], t)
  }

  // ---------- the lookups ----------

  lemma FlatStep(all: seq<EpochIntervals>, i: nat, j: nat)
    requires i < |all| && j <= |all[i].intervals|
    ensures j < |all[i].intervals| ==>
              var rest := Tag(all[i])[j..] + Flat(all[i + 1..]);
              rest != [] && rest[0] == Tagged(all[i].epoch, all[i].intervals[j])
              && rest[1..] == Tag(all[i])[j + 1..] + Flat(all[i + 1..])
    ensures Tag(all[i])[|all[i].intervals|..] + Flat(all[i + 1..]) == Flat(all[i + 1..])
    ensures Flat(all[i..]) == Tag(all[i])[0..] + Flat(all[i + 1..])
  {
    assert all[i..][0] == all[i] && all[i..][1..] == all[i + 1..];
  }

  method WasSkippedByArchive(tick: uint32, all: seq<EpochIntervals>) returns (skipped: bool, next: uint32)
    ensures skipped == FirstBeyond(Flat(all), tick).Some?
    ensures next == if skipped then FirstBeyond(Flat(all), tick).value else 0
  {
    ghost var goal := FirstBeyond(Flat(all), tick);
    assert all[0..] == all;
    for i := 0 to |all|
      invariant FirstBeyond(Flat(all[i..]), tick) == goal
    {
      FlatStep(all, i, 0);
      for j := 0 to |all[i].intervals|
        invariant FirstBeyond(Tag(all[i])[j..] + Flat(all[i + 1..]), tick) == goal
      {
        FlatStep(all, i, j);
        var iv := all[i].intervals[j];
        if tick < iv.first {
          return true, iv.first;
        }
        if iv.first <= tick <= iv.last {
          return false, 0;
        }
      }
      FlatStep(all, i, |all[i].intervals|);
    }
    return false, 0;
  }

  method GetTickEpoch(tick: uint32, all: seq<EpochIntervals>) returns (r: Option<uint32>)
    ensures r == FirstEpoch(Flat(all), tick)
  {
    ghost var goal := FirstEpoch(Flat(all), tick);
    assert all[0..] == all;
    for i := 0 to |all|
      invariant FirstEpoch(Flat(all[i..]), tick) == goal
    {
      FlatStep(all, i, 0);
      for j := 0 to |all[i].intervals|
        invariant FirstEpoch(Tag(all[i])[j..] + Flat(all[i + 1..]), tick) == goal
      {
        FlatStep(all, i, j);
        var iv := all[i].intervals[j];
        if iv.first <= tick <= iv.last {
          return Some(all[i].epoch);
        }
      }
      FlatStep(all, i, |all[i].intervals|);
    }
    return None;
  }

  /** The first entry of an epoch. */
  function EntryOf(epoch: uint32, all: seq<EpochIntervals>): (r: Option<seq<Interval>>)
  {
    if all == [] then None
    else if all[0].epoch == epoch then Some(all[0].intervals)
    else EntryOf(epoch, all[1..])
  }

  method GetProcessedTickIntervalsForEpoch(epoch: uint32, all: seq<EpochIntervals>)
    returns (r: Option<seq<Interval>>)
    ensures r == EntryOf(epoch, all)
  {
    assert all[0..] == all;
    for i := 0 to |all|
      invariant EntryOf(epoch, all[i..]) == EntryOf(epoch, all)
    {
      assert all[i..][1..] == all[i + 1..];
      if all[i].epoch == epoch {
        return Some(all[i].intervals);
      }
    }
    return None;
  }

  /** The position of the first interval that ends at the tick. */
  function EndsAt(ivs: seq<Interval>, tick: uint32, from: nat): (r: Option<nat>)
    requires from <= |ivs|
    ensures r.Some? ==> from <= r.value < |ivs| && ivs[r.value].last == tick
    ensures r.Some? ==> forall i :: from <= i < r.value ==> ivs[i].last != tick
    ensures r.None? ==> forall i :: from <= i < |ivs| ==> ivs[i].last != tick
    decreases |ivs| - from
  {
    if from == |ivs| then None
    else if ivs[from].last == tick then Some(from)
    else EndsAt(ivs, tick, from + 1)
  }

  method IsTickLastInAnyEpochInterval(tick: uint32, epoch: uint32, all: seq<EpochIntervals>)
    returns (r: Result<Option<nat>, ()>)
    ensures r == match EntryOf(epoch, all)
                 case None => Err(())
                 case Some(ivs) => Ok(EndsAt(ivs, tick, 0))
  {
    var entry := GetProcessedTickIntervalsForEpoch(epoch, all);
    if entry.None? {
      return Err(());
    }
    var ivs := entry.value;
    for i := 0 to |ivs|
      invariant EndsAt(ivs, tick, i) == EndsAt(ivs, tick, 0)
    {
      if ivs[i].last == tick {
        return Ok(Some(i));
      }
    }
    return Ok(None);
  }

  // ---------- the gate ----------

  datatype Verdict =
    | Internal                          // nothing processed yet
    | TooNew(last: uint32)              // beyond the last processed tick
    | WasSkipped(next: uint32)          // skipped; the next available tick
    | Accepted

  ghost function Check(s: State, tick: uint32): (v: Verdict)
  {
    if s.last.None? then Internal
    else if tick > s.last.value.tick then TooNew(s.last.value.tick)
    else match FirstBeyond(Flat(AllIntervals(s)), tick)
      case Some(next) => WasSkipped(next)
      case None => Accepted
  }

  // ---------- the scan of a well-formed state ----------

  ghost predicate Holds(ivs: seq<Tagged>, epoch: uint32, iv: Interval)
  {
    Tagged(epoch, iv) in ivs
  }

  lemma {:induction false} FlatMembers(all: seq<EpochIntervals>, x: Tagged)
    ensures x in Flat(all) <==> exists i :: 0 <= i < |all| && all[i].epoch == x.epoch && x.interval in all[i].intervals
  {
    if all != [] {
      FlatMembers(all[1..], x);
      assert x in Tag(all[0]) <==> all[0].epoch == x.epoch && x.interval in all[0].intervals by {
        if all[0].epoch == x.epoch && x.interval in all[0].intervals {
          var j :| 0 <= j < |all[0].intervals| && all[0].intervals[j] == x.interval;
          assert Tag(all[0])[j] == x;
        }
      }
      if i :| 0 <= i < |all| && all[i].epoch == x.epoch && x.interval in all[i].intervals {
        assert i > 0 ==> all[1..][i - 1] == all[i];
      }
      if i :| 0 <= i < |all[1..]| && all[1..][i].epoch == x.epoch && x.interval in all[1..][i].intervals {
        assert all[i + 1] == all[1..][i];
      }
    }
  }

  ghost predicate StartsAscend(ivs: seq<Tagged>)
  {
    && (forall i :: 0 <= i < |ivs| ==> ivs[i].interval.first <= ivs[i].interval.last)
    && (forall i, j :: 0 <= i < j < |ivs| ==> ivs[i].interval.first <= ivs[j].interval.first)
  }

  lemma {:induction false} FlatAscends(all: seq<EpochIntervals>)
    requires forall i :: 0 <= i < |all| ==> ListOk(all[i].intervals)
    requires forall i, j :: 0 <= i < j < |all| ==> Below(all[i].intervals, all[j].intervals)
    ensures StartsAscend(Flat(all))
  {
    if all != [] {
      FlatAscends(all[1..]);
      var head, rest := Tag(all[0]), Flat(all[1..]);
      forall i, j | 0 <= i < |head| && 0 <= j < |rest| ensures head[i].interval.first <= rest[j].interval.first {
        assert rest[j] in rest;
        FlatMembers(all[1..], rest[j]);
        var k :| 0 <= k < |all[1..]| && all[1..][k].epoch == rest[j].epoch && rest[j].interval in all[1..][k].intervals;
        assert Below(all[0].intervals, all[k + 1].intervals);
      }
    }
  }

  lemma KnownEpoch(s: State, h: History, f: Fate, e: uint32)
    requires Inv(s, h, f) && e in s.intervals
    ensures e <= MAX_SCANNED_EPOCH
  {
    EndsAreSeen(s, h, f, e, 0);
  }

  /** Scanning the interval table of a run's state: starts ascend, and the intervals are exactly the
      stored ones of every epoch. */
  lemma ScanOfRun(s: State, h: History, f: Fate)
    requires Inv(s, h, f)
    ensures StartsAscend(Flat(AllIntervals(s)))
    ensures forall e, iv :: Holds(Flat(AllIntervals(s)), e, iv) <==> e in s.intervals && iv in s.intervals[e]
  {
    var all, es := AllIntervals(s), ScannedEpochs(s);
    forall i | 0 <= i < |es| ensures es[i] in s.intervals {
      assert es[i] in es;
    }
    FlatAscends(all);
    forall e, iv ensures Holds(Flat(all), e, iv) <==> e in s.intervals && iv in s.intervals[e] {
      FlatMembers(all, Tagged(e, iv));
      if e in s.intervals && iv in s.intervals[e] {
        KnownEpoch(s, h, f, e);
        var i :| 0 <= i < |es| && es[i] == e;
        assert all[i].epoch == e && iv in all[i].intervals;
      }
    }
  }

  /** On ascending starts, scanning stops without a skip exactly if an interval contains the tick or
      none starts beyond it; otherwise it reports the least start beyond the tick. */
  lemma {:induction false} FirstBeyondMeaning(ivs: seq<Tagged>, t: uint32)
    requires StartsAscend(ivs)
    ensures var r := FirstBeyond(ivs, t);
            && (r.Some? ==>
                  && (exists i :: 0 <= i < |ivs| && ivs[i].interval.first == r.value)
                  && t < r.value
                  && (forall i :: 0 <= i < |ivs| && t < ivs[i].interval.first ==> r.value <= ivs[i].interval.first)
                  && (forall i :: 0 <= i < |ivs| ==> !(ivs[i].interval.first <= t <= ivs[i].interval.last)))
            && (r.None? ==>
                  || (exists i :: 0 <= i < |ivs| && ivs[i].interval.first <= t <= ivs[i].interval.last)
                  || (forall i :: 0 <= i < |ivs| ==> ivs[i].interval.first <= t))
  {
    if ivs != [] {
      if ivs[0].interval.first <= t && ivs[0].interval.last < t {
        FirstBeyondMeaning(ivs[1..], t);
        var r := FirstBeyond(ivs[1..], t);
        if r.Some? {
          var i :| 0 <= i < |ivs[1..]| && ivs[1..][i].interval.first == r.value;
          assert ivs[i + 1].interval.first == r.value;
        } else if i :| 0 <= i < |ivs[1..]| && ivs[1..][i].interval.first <= t <= ivs[1..][i].interval.last {
          assert ivs[i + 1] == ivs[1..][i];
        }
        assert forall i :: 1 <= i < |ivs| ==> ivs[i] == ivs[1..][i - 1];
      }
    }
  }

  lemma {:induction false} FirstEpochMeaning(ivs: seq<Tagged>, t: uint32)
    ensures var r := FirstEpoch(ivs, t);
            && (r.Some? ==>
                  exists i :: 0 <= i < |ivs| && ivs[i].epoch == r.value
                              && ivs[i].interval.first <= t <= ivs[i].interval.last)
            && (r.None? ==> forall i :: 0 <= i < |ivs| ==> !(ivs[i].interval.first <= t <= ivs[i].interval.last))
  {
    if ivs != [] && !(ivs[0].interval.first <= t <= ivs[0].interval.last) {
      FirstEpochMeaning(ivs[1..], t);
      var r := FirstEpoch(ivs[1..], t);
      if r.Some? {
        var i :| 0 <= i < |ivs[1..]| && ivs[1..][i].epoch == r.value
          && ivs[1..][i].interval.first <= t <= ivs[1..][i].interval.last;
        assert ivs[i + 1] == ivs[1..][i];
      }
      assert forall i :: 1 <= i < |ivs| ==> ivs[i] == ivs[1..][i - 1];
    }
  }

  // ---------- theorems ----------

  /** What an interval contains was processed or is a stray, in its epoch. */
  lemma CoveredIsSeen(s: State, h: History, f: Fate, e: uint32, iv: Interval, t: int)
    requires Inv(s, h, f) && e in s.intervals && iv in s.intervals[e] && iv.first <= t <= iv.last
    ensures Seen(h, f, e, t) && t !in f.lost && t !in f.pending
  {
    var i :| 0 <= i < |s.intervals[e]| && s.intervals[e][i] == iv;
    assert InIntervals(s.intervals[e], t);
    assert Covered(s, e, t);
  }

  lemma CoveredIsProcessed(s: State, h: History, f: Fate, e: uint32, iv: Interval, t: int)
    requires Inv(s, h, f) && f.stray == {} && e in s.intervals && iv in s.intervals[e] && iv.first <= t <= iv.last
    ensures Processed(h, t) && 0 <= t <= MAX_UINT32 && ProcessedTick(t, e) in h
  {
    CoveredIsSeen(s, h, f, e, iv, t);
    var k :| 0 <= k < |h| && h[k] == ProcessedTick(t, e);
  }

  /** With nothing written beyond the last processed tick, all intervals start before a pending tick. */
  lemma PendingIsBeyond(s: State, h: History, f: Fate, t: int)
    requires Inv(s, h, f) && t in f.pending && forall x :: !Open(h, f, x)
    ensures forall e, i :: e in s.intervals && 0 <= i < |s.intervals[e]| ==> s.intervals[e][i].first < t
  {
    var last := h[|h| - 1].epoch;
    forall e, i | e in s.intervals && 0 <= i < |s.intervals[e]| ensures s.intervals[e][i].first < t {
      KnownNotNewer(s, h, f, e);
      if e < last {
        FirstBelowNewest(s, e, last, i);
      } else {
        NewestStartsLast(s.intervals[last], i);
      }
    }
  }

  lemma FirstBelowNewest(s: State, d: uint32, e: uint32, i: nat)
    requires ListsOk(s) && EpochsApart(s) && d in s.intervals && e in s.intervals && d < e && i < |s.intervals[d]|
    ensures s.intervals[e] != [] && s.intervals[d][i].first < End(s.intervals[e])
  {
    assert Below(s.intervals[d], s.intervals[e]);
    var n := |s.intervals[e]| - 1;
    assert s.intervals[d][i].last < s.intervals[e][n].first;
  }

  lemma NewestStartsLast(ivs: seq<Interval>, i: nat)
    requires ListOk(ivs) && i < |ivs|
    ensures ivs[i].first <= End(ivs)
  {
    if i < |ivs| - 1 {
      assert ivs[i].first <= ivs[|ivs| - 1].first;
    }
  }

  /** A processed tick that intervals cover is not skipped. */
  lemma GateAccepts(s: State, h: History, f: Fate, t: uint32)
    requires Inv(s, h, f) && t !in f.lost && t !in f.pending && Processed(h, t)
    ensures FirstBeyond(Flat(AllIntervals(s)), t) == None
  {
    ScanOfRun(s, h, f);
    FirstBeyondMeaning(Flat(AllIntervals(s)), t);
    var k :| 0 <= k < |h| && h[k].tick == t;
    var e := h[k].epoch;
    assert Seen(h, f, e, t);
    assert Covered(s, e, t);
    var j :| 0 <= j < |s.intervals[e]| && s.intervals[e][j].first <= t <= s.intervals[e][j].last;
    FoundInScan(s, h, f, e, s.intervals[e][j]);
  }

  lemma FoundInScan(s: State, h: History, f: Fate, e: uint32, iv: Interval)
    requires Inv(s, h, f) && e in s.intervals && iv in s.intervals[e]
    ensures exists i :: 0 <= i < |Flat(AllIntervals(s))| && Flat(AllIntervals(s))[i] == Tagged(e, iv)
  {
    ScanOfRun(s, h, f);
    assert Holds(Flat(AllIntervals(s)), e, iv);
  }

  /** The epoch lookup answers exactly for the ticks that intervals cover, with the one epoch in which
      the tick was processed or is a stray. */
  lemma EpochLookupIsExact(s: State, h: History, f: Fate, t: uint32, e: uint32)
    requires Inv(s, h, f)
    ensures FirstEpoch(Flat(AllIntervals(s)), t) == Some(e) <==> Seen(h, f, e, t) && t !in f.lost && t !in f.pending
  {
    var r := FirstEpoch(Flat(AllIntervals(s)), t);
    if r.Some? {
      EpochFoundIsSeen(s, h, f, t);
    }
    if Seen(h, f, e, t) && t !in f.lost && t !in f.pending {
      EpochIsFound(s, h, f, t, e);
      EpochFoundIsSeen(s, h, f, t);
      CoveringEpochUnique(s, e, r.value, t);
    }
  }

  lemma EpochFoundIsSeen(s: State, h: History, f: Fate, t: uint32)
    requires Inv(s, h, f) && FirstEpoch(Flat(AllIntervals(s)), t).Some?
    ensures var e := FirstEpoch(Flat(AllIntervals(s)), t).value;
            Covered(s, e, t) && Seen(h, f, e, t) && t !in f.lost && t !in f.pending
  {
    var ivs := Flat(AllIntervals(s));
    ScanOfRun(s, h, f);
    FirstEpochMeaning(ivs, t);
    var i :| 0 <= i < |ivs| && ivs[i].epoch == FirstEpoch(ivs, t).value
      && ivs[i].interval.first <= t <= ivs[i].interval.last;
    assert Holds(ivs, ivs[i].epoch, ivs[i].interval);
    CoveredIsSeen(s, h, f, ivs[i].epoch, ivs[i].interval, t);
    assert Covered(s, ivs[i].epoch, t);
  }

  lemma EpochIsFound(s: State, h: History, f: Fate, t: uint32, e: uint32)
    requires Inv(s, h, f) && Seen(h, f, e, t) && t !in f.lost && t !in f.pending
    ensures Covered(s, e, t) && FirstEpoch(Flat(AllIntervals(s)), t).Some?
  {
    assert Covered(s, e, t);
    var j :| 0 <= j < |s.intervals[e]| && s.intervals[e][j].first <= t <= s.intervals[e][j].last;
    FoundInScan(s, h, f, e, s.intervals[e][j]);
    FirstEpochMeaning(Flat(AllIntervals(s)), t);
  }

  lemma CoveringEpochUnique(s: State, d: uint32, e: uint32, t: int)
    requires EpochsApart(s) && Covered(s, d, t) && Covered(s, e, t)
    ensures d == e
  {
    var i :| 0 <= i < |s.intervals[d]| && s.intervals[d][i].first <= t <= s.intervals[d][i].last;
    var j :| 0 <= j < |s.intervals[e]| && s.intervals[e][j].first <= t <= s.intervals[e][j].last;
  }
}
