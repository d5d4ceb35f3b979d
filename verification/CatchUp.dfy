/** The archiver catches up with a node: which ticks repeated passes over one report take, in which order,
    and when they stop. */
module CatchUp {
  import opened Bytes
  import opened Wrappers
  import opened Progress
  import opened ProgressRuns
  import opened RunInvariant
  import opened CleanRuns
  import opened QuorumRecords
  import opened Archive
  import opened ArchiveRuns
  import EmptyTicks

  /** The tick that is processed next: the node's first tick after a jump, and otherwise the one after the
      last processed tick. */
  function FirstTick(h: History, info: TickInfo): (t: nat)
  {
    var last := if h == [] then 0 else h[|h| - 1].tick;
    if info.initialTick > last then info.initialTick else last + 1
  }

  /** Its epoch: the node's after a jump or at the very beginning, and otherwise that of the last processed
      tick. */
  function FirstEpoch(h: History, info: TickInfo): (e: uint32)
  {
    if h == [] || info.initialTick > h[|h| - 1].tick then info.epoch else h[|h| - 1].epoch
  }

  /** The ticks of an epoch from a first one up to the node's, at most `n` of them. */
  function Taken(first: nat, epoch: uint32, tick: uint32, n: nat): (h: History)
    decreases n
  {
    if n == 0 || first > tick then [] else [ProcessedTick(first, epoch)] + Taken(first + 1, epoch, tick, n - 1)
  }

  lemma {:induction false} TakenTicks(first: nat, epoch: uint32, tick: uint32, n: nat)
    ensures var h := Taken(first, epoch, tick, n);
            && |h| == (if first > tick then 0 else if n <= tick + 1 - first then n else tick + 1 - first)
            && forall i :: 0 <= i < |h| ==> h[i].tick == first + i && h[i].epoch == epoch
    decreases n
  {
    if n > 0 && first <= tick {
      TakenTicks(first + 1, epoch, tick, n - 1);
    }
  }

  /** The marker over any run of well-formed reports, interrupted anywhere and whether behind or not. */
  lemma {:induction false} MarkerOverRuns(run: Run)
    requires ReportsWellFormed(run)
    ensures MarkerOk(Final(run), HistoryOf(run))
  {
    if run != [] {
      var before := run[..|run| - 1];
      MarkerOverRuns(before);
      MarkerAfterPass(Final(before), HistoryOf(before), run[|run| - 1]);
    }
  }

  lemma MarkerAfterPass(s: State, h: History, e: Attempt)
    requires MarkerOk(s, h) && WellFormed(s, e.info)
    ensures MarkerOk(Play(s, e), h + if Marks(s, e) then [Next(s, e.info)] else [])
  {
    assert h + [] == h;
    if Due(s, e.info) {
      MarkerAfter(s, h, e);
    }
  }

  /** `n` more passes over the report, none of them interrupted. */
  function Repeated(run: Run, info: TickInfo, n: nat): (r: Run)
  {
    if n == 0 then run else Repeated(run, info, n - 1) + [Attempt(info, ALL_WRITES)]
  }

  /** One pass over a report takes the next tick if the node has reached it, and otherwise does nothing. */
  lemma PassTakes(s: State, h: History, info: TickInfo)
    requires MarkerOk(s, h) && WellFormed(s, info)
    ensures var e, first := Attempt(info, ALL_WRITES), FirstTick(h, info);
            && (Marks(s, e) <==> first <= info.tick)
            && (first <= info.tick ==> Next(s, info) == ProcessedTick(first, FirstEpoch(h, info)))
            && (first > info.tick ==> Play(s, e) == s)
  {
    NextIsFirst(s, h, info);
    if Due(s, info) {
      HistoryGrows(s, h, info);
      WritesAcrossGap(s, info);
    }
  }

  lemma NextIsFirst(s: State, h: History, info: TickInfo)
    requires MarkerOk(s, h) && WellFormed(s, info)
    ensures FirstTick(h, info) <= MAX_UINT32 && Next(s, info) == ProcessedTick(FirstTick(h, info), FirstEpoch(h, info))
  {
    if h != [] {
      assert h[|h| - 1].tick < MAX_UINT32;
    }
  }

  lemma PassAdds(s: State, h: History, info: TickInfo)
    requires MarkerOk(s, h) && WellFormed(s, info)
    ensures (if Marks(s, Attempt(info, ALL_WRITES)) then [Next(s, info)] else [])
            == Taken(FirstTick(h, info), FirstEpoch(h, info), info.tick, 1)
  {
    PassTakes(s, h, info);
    assert Taken(FirstTick(h, info) + 1, FirstEpoch(h, info), info.tick, 0) == [];
  }

  lemma {:induction false} TakenSnoc(first: nat, epoch: uint32, tick: uint32, n: nat)
    ensures Taken(first, epoch, tick, n + 1) == Taken(first, epoch, tick, n) + Taken(first + n, epoch, tick, 1)
    decreases n
  {
    if n > 0 && first <= tick {
      TakenSnoc(first + 1, epoch, tick, n - 1);
    }
  }

  /** After some passes the next tick has moved on, and stays in the same epoch. */
  lemma FirstMoves(h: History, info: TickInfo, n: nat)
    requires info.tick < MAX_UINT32 && HistoryOk(h)
    ensures var first, epoch := FirstTick(h, info), FirstEpoch(h, info);
            var h' := h + Taken(first, epoch, info.tick, n);
            && Taken(FirstTick(h', info), FirstEpoch(h', info), info.tick, 1) == Taken(first + n, epoch, info.tick, 1)
            && (first + n > info.tick ==> FirstTick(h', info) > info.tick)
  {
    var first, epoch := FirstTick(h, info), FirstEpoch(h, info);
    TakenTicks(first, epoch, info.tick, n);
    var more := Taken(first, epoch, info.tick, n);
    if more != [] {
      assert (h + more)[|h + more| - 1] == more[|more| - 1];
    } else {
      assert h + more == h;
    }
  }

  /** A pass that follows is well formed again. */
  lemma StillWellFormed(s: State, h: History, s': State, h': History, info: TickInfo, n: nat)
    requires MarkerOk(s, h) && MarkerOk(s', h') && WellFormed(s, info)
    requires h' == h + Taken(FirstTick(h, info), FirstEpoch(h, info), info.tick, n)
    ensures WellFormed(s', info)
  {
    TakenTicks(FirstTick(h, info), FirstEpoch(h, info), info.tick, n);
    var more := Taken(FirstTick(h, info), FirstEpoch(h, info), info.tick, n);
    if more != [] {
      assert h'[|h'| - 1] == more[|more| - 1];
    } else {
      assert h' == h;
    }
  }

  lemma {:induction false} RepeatedHistory(run: Run, info: TickInfo, n: nat)
    requires ReportsWellFormed(run) && WellFormed(Final(run), info)
    ensures ReportsWellFormed(Repeated(run, info, n))
    ensures var h := HistoryOf(run);
            HistoryOf(Repeated(run, info, n)) == h + Taken(FirstTick(h, info), FirstEpoch(h, info), info.tick, n)
  {
    if n == 0 {
      NoMore(run, info, HistoryOf(run));
    } else {
      RepeatedHistory(run, info, n - 1);
      OneMore(run, info, n - 1);
    }
  }

  lemma NoMore(run: Run, info: TickInfo, h: History)
    ensures Repeated(run, info, 0) == run
    ensures h + Taken(FirstTick(h, info), FirstEpoch(h, info), info.tick, 0) == h
  {}

  lemma OneMore(run: Run, info: TickInfo, n: nat)
    requires ReportsWellFormed(run) && WellFormed(Final(run), info) && ReportsWellFormed(Repeated(run, info, n))
    requires var h := HistoryOf(run);
             HistoryOf(Repeated(run, info, n)) == h + Taken(FirstTick(h, info), FirstEpoch(h, info), info.tick, n)
    ensures ReportsWellFormed(Repeated(run, info, n + 1))
    ensures var h := HistoryOf(run);
            HistoryOf(Repeated(run, info, n + 1))
            == h + Taken(FirstTick(h, info), FirstEpoch(h, info), info.tick, n + 1)
    ensures FirstTick(HistoryOf(run), info) + n > info.tick ==>
              Final(Repeated(run, info, n + 1)) == Final(Repeated(run, info, n))
  {
    var h, r := HistoryOf(run), Repeated(run, info, n);
    MarkerOverRuns(run);
    MarkerOverRuns(r);
    StillWellFormed(Final(run), h, Final(r), HistoryOf(r), info, n);
    AppendPass(r, Attempt(info, ALL_WRITES));
    PassAdds(Final(r), HistoryOf(r), info);
    PassTakes(Final(r), HistoryOf(r), info);
    Joined(h, HistoryOf(r), info, n);
  }

  lemma Joined(h: History, h': History, info: TickInfo, n: nat)
    requires info.tick < MAX_UINT32 && HistoryOk(h)
    requires h' == h + Taken(FirstTick(h, info), FirstEpoch(h, info), info.tick, n)
    ensures h' + Taken(FirstTick(h', info), FirstEpoch(h', info), info.tick, 1)
            == h + Taken(FirstTick(h, info), FirstEpoch(h, info), info.tick, n + 1)
    ensures FirstTick(h, info) + n > info.tick ==> FirstTick(h', info) > info.tick
  {
    FirstMoves(h, info, n);
    TakenSnoc(FirstTick(h, info), FirstEpoch(h, info), info.tick, n);
  }

  lemma AppendPass(r: Run, e: Attempt)
    requires ReportsWellFormed(r) && WellFormed(Final(r), e.info)
    ensures ReportsWellFormed(r + [e]) && Final(r + [e]) == Play(Final(r), e)
    ensures HistoryOf(r + [e]) == HistoryOf(r) + if Marks(Final(r), e) then [Next(Final(r), e.info)] else []
  {
    assert (r + [e])[..|r|] == r;
  }

  /** What `n` passes add to the history: the ticks up to the node's, one after the other, at most `n`. They
      start with the node's first tick, in the node's epoch, if that lies beyond the last processed one,
      and otherwise with the tick after the last one, in its epoch. */
  ghost predicate CaughtUp(h: History, h': History, info: TickInfo, n: nat)
  {
    var last := if h == [] then 0 else h[|h| - 1].tick;
    var first := if info.initialTick > last then info.initialTick else last + 1;
    var epoch := if h == [] || info.initialTick > last then info.epoch else h[|h| - 1].epoch;
    var reach := Reach(h, info);
    && |h'| == |h| + (if n < reach then n else reach) && h <= h'
    && forall i :: |h| <= i < |h'| ==> h'[i].tick == first + (i - |h|) && h'[i].epoch == epoch
  }

  /** How many ticks there are to catch up with. */
  function Reach(h: History, info: TickInfo): (n: nat)
  {
    var last := if h == [] then 0 else h[|h| - 1].tick;
    var first := if info.initialTick > last then info.initialTick else last + 1;
    if info.tick < first then 0 else info.tick + 1 - first
  }

  lemma TakenCatchesUp(h: History, info: TickInfo, n: nat)
    ensures CaughtUp(h, h + Taken(FirstTick(h, info), FirstEpoch(h, info), info.tick, n), info, n)
  {
    TakenTicks(FirstTick(h, info), FirstEpoch(h, info), info.tick, n);
  }

  lemma ReachedTick(h: History, h': History, info: TickInfo, n: nat)
    requires CaughtUp(h, h', info, n) && 0 < Reach(h, info) <= n
    ensures h' != [] && h'[|h'| - 1].tick == info.tick
  {}

  /** From the state of any run, however interrupted, `n` uninterrupted passes over one report process the
      ticks up to the node's, one after the other. Once the node's tick is reached, the marker is at that
      tick, and further passes change nothing. */
  lemma CatchesUp(run: Run, info: TickInfo, n: nat)
    requires ReportsWellFormed(run) && WellFormed(Final(run), info)
    ensures CaughtUp(HistoryOf(run), HistoryOf(Repeated(run, info, n)), info, n)
    ensures var h', s' := HistoryOf(Repeated(run, info, n)), Final(Repeated(run, info, n));
            && s'.last == (if h' == [] then None else Some(h'[|h'| - 1]))
            && (0 < Reach(HistoryOf(run), info) <= n ==> s'.last.Some? && s'.last.value.tick == info.tick)
            && (Reach(HistoryOf(run), info) <= n ==> Final(Repeated(run, info, n + 1)) == s')
  {
    var h := HistoryOf(run);
    RepeatedHistory(run, info, n);
    TakenCatchesUp(h, info, n);
    MarkerOverRuns(Repeated(run, info, n));
    OneMore(run, info, n);
    if 0 < Reach(h, info) <= n {
      ReachedTick(h, HistoryOf(Repeated(run, info, n)), info, n);
    }
  }

  // ---------- the archive ----------

  /** Whole passes over one report, each with what was validated for its tick. */
  function PassesOver(run: seq<Action>, info: TickInfo, vs: seq<Validated>): (r: seq<Action>)
  {
    if vs == [] then run
    else PassesOver(run, info, vs[..|vs| - 1]) + [Pass(Report(info, Some(vs[|vs| - 1])), ALL)]
  }

  /** The entry is about the tick, and holds what was validated for it. */
  ghost predicate EntryHolds(e: Entry, t: int, epoch: uint32, info: TickInfo, v: Validated)
  {
    && e.tick.tick == t && e.tick.epoch == epoch
    && e.votes == v.votes && e.data == v.data && e.reset == (t == info.initialTick)
  }

  /** The log with one entry for each of them. */
  ghost predicate Extends(l: Log, l': Log, first: nat, epoch: uint32, info: TickInfo, vs: seq<Validated>)
  {
    && |l'| == |l| + |vs| && l <= l'
    && forall i :: 0 <= i < |vs| ==> EntryHolds(l'[|l| + i], first + i, epoch, info, vs[i])
  }

  lemma OneEntry(k: Codec, a: Archive, l: Log, info: TickInfo, v: Validated)
    requires BasicOk(k, a, l) && ReportOk(a, Report(info, Some(v))) && FirstTick(TicksIn(l), info) <= info.tick
    ensures var x := Pass(Report(info, Some(v)), ALL);
            && |NewEntries(k, a, x)| == 1
            && EntryHolds(NewEntries(k, a, x)[0], FirstTick(TicksIn(l), info), FirstEpoch(TicksIn(l), info), info, v)
  {
    NextIsFirst(a.progress, TicksIn(l), info);
    WholePass(k, a, l, Report(info, Some(v)), ALL);
  }

  lemma ExtendsOne(l: Log, l1: Log, e: Entry, first: nat, epoch: uint32, info: TickInfo, vs: seq<Validated>)
    requires vs != [] && Extends(l, l1, first, epoch, info, vs[..|vs| - 1])
    requires EntryHolds(e, first + |vs| - 1, epoch, info, vs[|vs| - 1])
    ensures Extends(l, l1 + [e], first, epoch, info, vs)
  {
    forall i | 0 <= i < |vs| ensures EntryHolds((l1 + [e])[|l| + i], first + i, epoch, info, vs[i]) {
      if i < |vs| - 1 {
        assert EntryHolds(l1[|l| + i], first + i, epoch, info, vs[..|vs| - 1][i]);
      }
    }
  }

  /** Where the next tick is, once the log has been extended. */
  lemma FirstAfter(l: Log, l': Log, info: TickInfo, vs: seq<Validated>)
    requires Extends(l, l', FirstTick(TicksIn(l), info), FirstEpoch(TicksIn(l), info), info, vs)
    ensures FirstTick(TicksIn(l'), info) == FirstTick(TicksIn(l), info) + |vs|
    ensures FirstEpoch(TicksIn(l'), info) == FirstEpoch(TicksIn(l), info)
  {
    if vs == [] {
      assert l' == l;
    } else {
      var i := |vs| - 1;
      assert EntryHolds(l'[|l| + i], FirstTick(TicksIn(l), info) + i, FirstEpoch(TicksIn(l), info), info, vs[i]);
    }
  }

  lemma {:induction false} LogGrows(k: Codec, run: seq<Action>, info: TickInfo, vs: seq<Validated>)
    requires ActionsOk(k, PassesOver(run, info, vs))
    requires |vs| <= info.tick + 1 - FirstTick(TicksIn(LogOf(k, run)), info)
    ensures var l := LogOf(k, run);
            Extends(l, LogOf(k, PassesOver(run, info, vs)), FirstTick(TicksIn(l), info), FirstEpoch(TicksIn(l), info),
                    info, vs)
  {
    if vs != [] {
      var init, v := vs[..|vs| - 1], vs[|vs| - 1];
      var before, x := PassesOver(run, info, init), Pass(Report(info, Some(v)), ALL);
      EmptyTicks.RunSnoc(k, before, x);
      LogGrows(k, run, info, init);
      RunKeepsArchive(k, before);
      FirstAfter(LogOf(k, run), LogOf(k, before), info, init);
      OneEntry(k, FinalArchive(k, before), LogOf(k, before), info, v);
      var l, news := LogOf(k, run), NewEntries(k, FinalArchive(k, before), x);
      ExtendsOne(l, LogOf(k, before), news[0], FirstTick(TicksIn(l), info), FirstEpoch(TicksIn(l), info), info, vs);
      assert LogOf(k, before) + news == LogOf(k, before) + [news[0]];
    }
  }

  /** The entry is about a tick, with the votes and data it came with, and the data is stored: as an empty
      message if there was none. The chain starts anew where the node's epoch starts. */
  ghost predicate RecordedAs(a: Archive, e: Entry, t: int, epoch: uint32, v: Validated, start: bool)
  {
    && e.tick.tick == t && e.tick.epoch == epoch && e.votes == v.votes && e.data == v.data && e.reset == start
    && t in a.tickData && a.tickData[t] == if v.data.None? then [] else v.data.value
  }

  /** The log grows by exactly these ticks, in this order. */
  ghost predicate RecordsAll(a: Archive, l: Log, l': Log, info: TickInfo, vs: seq<Validated>)
  {
    var last := if l == [] then 0 else l[|l| - 1].tick.tick;
    var first := if info.initialTick > last then info.initialTick else last + 1;
    var epoch := if l == [] || info.initialTick > last then info.epoch else l[|l| - 1].tick.epoch;
    && |l'| == |l| + |vs| && l <= l'
    && forall i :: 0 <= i < |vs| ==> RecordedAs(a, l'[|l| + i], first + i, epoch, vs[i], first + i == info.initialTick)
  }

  lemma ExtensionRecords(k: Codec, a: Archive, l: Log, l': Log, info: TickInfo, vs: seq<Validated>)
    requires RecordsOk(k, a, l')
    requires Extends(l, l', FirstTick(TicksIn(l), info), FirstEpoch(TicksIn(l), info), info, vs)
    ensures RecordsAll(a, l, l', info, vs)
  {
    var first, epoch := FirstTick(TicksIn(l), info), FirstEpoch(TicksIn(l), info);
    forall i | 0 <= i < |vs|
      ensures RecordedAs(a, l'[|l| + i], first + i, epoch, vs[i], first + i == info.initialTick)
    {
      assert EntryHolds(l'[|l| + i], first + i, epoch, info, vs[i]);
      assert RecordOk(k, a, l'[|l| + i]);
    }
  }

  lemma ReachIs(l: Log, info: TickInfo)
    ensures Reach(TicksIn(l), info) > 0 ==>
              Reach(TicksIn(l), info) == info.tick + 1 - FirstTick(TicksIn(l), info)
  {}

  /** From the state of any run, whole passes over one report with what was validated for each tick record
      exactly these ticks, one after the other, with the votes and data they came with. */
  lemma ArchiveCatchesUp(k: Codec, run: seq<Action>, info: TickInfo, vs: seq<Validated>)
    requires ActionsOk(k, PassesOver(run, info, vs)) && |vs| <= Reach(TicksIn(LogOf(k, run)), info)
    ensures RecordsAll(FinalArchive(k, PassesOver(run, info, vs)), LogOf(k, run), LogOf(k, PassesOver(run, info, vs)),
                       info, vs)
  {
    var run' := PassesOver(run, info, vs);
    if vs != [] {
      ReachIs(LogOf(k, run), info);
      LogGrows(k, run, info, vs);
    }
    RunKeepsArchive(k, run');
    ExtensionRecords(k, FinalArchive(k, run'), LogOf(k, run), LogOf(k, run'), info, vs);
  }
}
