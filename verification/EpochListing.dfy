/** The tick listings of an epoch: all processed ticks with their empty flags, and the empty ticks
    alone, each served in pages. */
module EpochListing {
  import opened Bytes
  import opened Wrappers
  import opened Keys
  import opened Progress
  import opened RunInvariant
  import opened CleanRuns
  import Gate
  import opened Paging
  import QuorumLookup
  import QuorumRecords
  import opened Archive
  import opened ArchiveRuns
  import opened EmptyTicks

  type int32 = n: int | -0x8000_0000 <= n < 0x8000_0000

  datatype TickStatus = TickStatus(tick: uint32, empty: bool)

  datatype ListError = BadPageSize | NoIntervals | NoEmptyTicks | NoSuchPage(last: nat)

  datatype Page<+T> = Page(items: seq<T>, pagination: Pagination)

  // ---------- choosing a page ----------

  function PageOf<T>(list: seq<T>, page: int32, size: int32): (r: Result<Page<T>, ListError>)
    requires size > 0
  {
    var pages := PageCount(|list|, size);
    var current := if page <= 0 then 1 else page;
    if current > pages then Err(NoSuchPage(pages))
    else
      var next := if current == pages then -1 else current + 1;
      var previous := if current == 1 then -1 else current - 1;
      Ok(Page(Window(list, (current - 1) * size, (current - 1) * size + size),
              Pagination(ToInt32(|list|), ToInt32(current), ToInt32(pages), size, ToInt32(next), ToInt32(previous))))
  }

  method SelectPage<T>(list: seq<T>, page: int32, size: int32) returns (r: Result<Page<T>, ListError>)
    requires size > 0
    ensures r == PageOf(list, page, size)
  {
    var pages := |list| / size;
    if |list| % size != 0 {
      pages := pages + 1;
    }
    PageCountIsQuotient(|list|, size);
    var current: int := page;
    if current <= 0 {
      current := 1;
    }
    if current > pages {
      return Err(NoSuchPage(pages));
    }
    StartInside(|list|, current, size);
    var items := Slice(list, (current - 1) * size, size);
    var next := current + 1;
    if current == pages {
      next := -1;
    }
    var previous := current - 1;
    if current == 1 {
      previous := -1;
    }
    r := Ok(Page(items, Pagination(ToInt32(|list|), ToInt32(current), ToInt32(pages), size, ToInt32(next),
                                   ToInt32(previous))));
  }

  method Slice<T>(list: seq<T>, start: nat, size: nat) returns (items: seq<T>)
    requires start < |list| && size > 0
    ensures items == Window(list, start, start + size)
  {
    var end := start + size;
    if end > |list| {
      end := |list|;
    }
    items := list[start..end];
    WindowInside(list, start, start + size);
  }

  lemma StartInside(total: nat, current: nat, size: nat)
    requires size > 0 && 1 <= current <= PageCount(total, size)
    ensures 0 <= (current - 1) * size < total
  {
    PageCountBounds(total, size);
    MulMonotone(current - 1, PageCount(total, size) - 1, size);
  }

  lemma WindowInside<T>(list: seq<T>, from: nat, to: nat)
    requires from < |list| && from < to
    ensures Window(list, from, to) == list[from..if to > |list| then |list| else to]
  {}

  /** An existing page holds the next `size` entries and is never empty; the page after it is announced
      exactly if entries are left. */
  lemma PageFacts<T>(list: seq<T>, page: int32, size: int32, from: nat)
    requires size > 0 && PageCount(|list|, size) < 0x8000_0000 && page >= 1 && from == (page - 1) * size < |list|
    ensures PageOf(list, page, size).Ok?
    ensures PageOf(list, page, size).value.items == Window(list, from, from + size)
    ensures PageOf(list, page, size).value.items != []
    ensures PageOf(list, page, size).value.pagination.nextPage == if from + size < |list| then page + 1 else -1
    ensures page <= |list|
  {
    PageExists(|list|, page, size);
    WindowInside(list, from, from + size);
  }

  lemma PageExists(total: nat, page: nat, size: nat)
    requires size > 0 && page >= 1 && (page - 1) * size < total
    ensures page <= PageCount(total, size) <= total
    ensures page < PageCount(total, size) <==> (page - 1) * size + size < total
  {
    PageCountBounds(total, size);
    NextPageIff(total, page, size);
    NextStart(page, size);
    if page > 1 {
      NextPageIff(total, page - 1, size);
    }
  }

  /** A page exists exactly if it starts inside the list; pages below one are taken for the first. Its record
      names the numbers asked for, the number of pages, the next page exactly if entries are left, and the
      page before it, if any. */
  lemma PageRecord<T>(list: seq<T>, page: int32, size: int32, c: nat, from: nat) returns (pages: nat)
    requires size > 0 && |list| < 0x8000_0000 && c == (if page <= 0 then 1 else page) && from == (c - 1) * size
    ensures pages * size >= |list| && (|list| == 0 ==> pages == 0) && (|list| > 0 ==> (pages - 1) * size < |list|)
    ensures from >= |list| ==> PageOf(list, page, size) == Err(NoSuchPage(pages))
    ensures from < |list| ==>
              PageOf(list, page, size)
              == Ok(Page(list[from..if from + size > |list| then |list| else from + size],
                         Pagination(|list|, c, pages, size, if from + size < |list| then c + 1 else -1,
                                    if c == 1 then -1 else c - 1)))
  {
    pages := PageCount(|list|, size);
    PageCountBounds(|list|, size);
    if from < |list| {
      PageExists(|list|, c, size);
      WindowInside(list, from, from + size);
    } else {
      NoPage(|list|, c, size, from);
    }
  }

  lemma NoPage(total: nat, c: nat, size: nat, from: nat)
    requires size > 0 && c >= 1 && from == (c - 1) * size && from >= total
    ensures c > PageCount(total, size)
  {
    if c > 1 {
      NextPageIff(total, c - 1, size);
    }
    PageCountBounds(total, size);
  }

  /** The entries a client receives that starts at a page and follows the next-page numbers. */
  function Visited<T>(list: seq<T>, page: int32, size: int32, from: nat): (r: seq<T>)
    requires size > 0 && PageCount(|list|, size) < 0x8000_0000 && page >= 1 && from == (page - 1) * size < |list|
    decreases |list| - from
  {
    PageFacts(list, page, size, from);
    NextStart(page, size);
    var response := PageOf(list, page, size).value;
    var next := response.pagination.nextPage;
    response.items + if next == -1 then [] else Visited(list, next, size, from + size)
  }

  lemma {:induction false} VisitedFrom<T>(list: seq<T>, page: int32, size: int32, from: nat)
    requires size > 0 && PageCount(|list|, size) < 0x8000_0000 && page >= 1 && from == (page - 1) * size < |list|
    ensures Visited(list, page, size, from) == Window(list, from, |list|)
    decreases |list| - from
  {
    PageFacts(list, page, size, from);
    NextStart(page, size);
    if from + size < |list| {
      VisitedFrom(list, page + 1, size, from + size);
      VisitedNext(list, page, size, from);
      WindowJoin(list, from, from + size);
    } else {
      VisitedLast(list, page, size, from);
      WindowToEnd(list, from, from + size);
    }
  }

  lemma VisitedNext<T>(list: seq<T>, page: int32, size: int32, from: nat)
    requires size > 0 && PageCount(|list|, size) < 0x8000_0000 && page >= 1 && from == (page - 1) * size
             && from + size < |list|
    ensures page + 1 < 0x8000_0000 && from + size == page * size
    ensures Visited(list, page, size, from)
            == Window(list, from, from + size) + Visited(list, page + 1, size, from + size)
  {
    PageFacts(list, page, size, from);
    NextStart(page, size);
    PageExists(|list|, page, size);
  }

  lemma VisitedLast<T>(list: seq<T>, page: int32, size: int32, from: nat)
    requires size > 0 && PageCount(|list|, size) < 0x8000_0000 && page >= 1
             && from == (page - 1) * size < |list| <= from + size
    ensures Visited(list, page, size, from) == Window(list, from, from + size)
  {
    PageFacts(list, page, size, from);
  }

  /** Following the pages of a list from the first one gives the whole list, in order. */
  lemma PagesListAll<T>(list: seq<T>, size: int32)
    requires size > 0 && |list| > 0 && PageCount(|list|, size) < 0x8000_0000
    ensures Visited(list, 1, size, 0) == list
  {
    VisitedFrom(list, 1, size, 0);
    WholeWindow(list);
  }

  // ---------- the listing of an epoch ----------

  ghost predicate Sorted(r: seq<TickStatus>, desc: bool)
  {
    forall i, j :: 0 <= i < j < |r| ==> if desc then r[i].tick > r[j].tick else r[i].tick < r[j].tick
  }

  /** The ticks of the intervals, once each, in the order asked for, marked if they are in the list. */
  ghost predicate IsListing(r: seq<TickStatus>, ivs: seq<Interval>, empties: seq<uint32>, desc: bool)
  {
    Sorted(r, desc) && forall x :: x in r <==> InIntervals(ivs, x.tick) && x.empty == (x.tick in empties)
  }

  function Numbers(s: seq<TickStatus>): (ts: seq<nat>)
    ensures |ts| == |s| && forall i :: 0 <= i < |ts| ==> ts[i] == s[i].tick
  {
    seq(|s|, i requires 0 <= i < |s| => s[i].tick)
  }

  lemma TickListed(r: seq<TickStatus>, ivs: seq<Interval>, empties: seq<uint32>, desc: bool, t: nat)
    requires IsListing(r, ivs, empties, desc)
    ensures t in Numbers(r) <==> InIntervals(ivs, t)
  {
    if t in Numbers(r) {
      var i :| 0 <= i < |r| && Numbers(r)[i] == t;
      assert r[i] in r;
    }
    if InIntervals(ivs, t) {
      var x := TickStatus(t, t in empties);
      assert x in r;
      var i :| 0 <= i < |r| && r[i] == x;
      assert Numbers(r)[i] == t;
    }
  }

  /** There is only one such listing in each direction, and one is the reverse of the other. */
  lemma ListingsAgree(a: seq<TickStatus>, b: seq<TickStatus>, ivs: seq<Interval>, empties: seq<uint32>)
    requires IsListing(a, ivs, empties, false) && IsListing(b, ivs, empties, false)
    ensures a == b
  {
    forall t ensures t in Numbers(a) <==> t in Numbers(b) {
      TickListed(a, ivs, empties, false, t);
      TickListed(b, ivs, empties, false, t);
    }
    IncreasingUnique(Numbers(a), Numbers(b));
    forall i | 0 <= i < |a| ensures a[i] == b[i] {
      assert a[i] in a && b[i] in b;
      assert Numbers(a)[i] == Numbers(b)[i];
    }
  }

  lemma ReversedListing(r: seq<TickStatus>, ivs: seq<Interval>, empties: seq<uint32>, desc: bool)
    requires IsListing(r, ivs, empties, desc)
    ensures IsListing(Reverse(r), ivs, empties, !desc)
  {
    var b := Reverse(r);
    ReverseLength(r);
    forall i | 0 <= i < |r| ensures b[i] == r[|r| - 1 - i] {
      ReverseAt(r, i);
    }
    forall x ensures x in b <==> x in r {
      if x in r {
        var i :| 0 <= i < |r| && r[i] == x;
        assert b[|r| - 1 - i] == x;
      }
      if x in b {
        var i :| 0 <= i < |b| && b[i] == x;
        assert r[|r| - 1 - i] == x;
      }
    }
  }

  lemma {:induction false} ReverseTwice<T>(s: seq<T>)
    ensures Reverse(Reverse(s)) == s
  {
    if s != [] {
      ReverseTwice(s[1..]);
      ReverseSnoc(Reverse(s[1..]), s[0]);
    }
  }

  lemma DescendingIsReverse(up: seq<TickStatus>, down: seq<TickStatus>, ivs: seq<Interval>, empties: seq<uint32>)
    requires IsListing(up, ivs, empties, false) && IsListing(down, ivs, empties, true)
    ensures down == Reverse(up)
  {
    ReversedListing(down, ivs, empties, true);
    ListingsAgree(up, Reverse(down), ivs, empties);
    ReverseTwice(down);
  }

  /** The map of the endpoint: every tick of the intervals, flagged. The loop over an interval ends
      because the interval does not reach the largest 32-bit number. */
  method MarkTicks(ivs: seq<Interval>, empties: seq<uint32>) returns (marks: map<uint32, bool>)
    requires forall i :: 0 <= i < |ivs| ==> ivs[i].last < MAX_UINT32
    ensures forall t :: t in marks <==> InIntervals(ivs, t)
    ensures forall t :: t in marks ==> marks[t] == (t in empties)
  {
    marks := map[];
    for n := 0 to |ivs|
      invariant forall t :: t in marks <==> InIntervals(ivs[..n], t)
      invariant forall t :: t in marks ==> !marks[t]
    {
      var i := ivs[n].first;
      while i <= ivs[n].last
        invariant ivs[n].first <= i
        invariant i <= ivs[n].last + 1 || i == ivs[n].first
        invariant forall t :: t in marks <==> InIntervals(ivs[..n], t) || ivs[n].first <= t < i
        invariant forall t :: t in marks ==> !marks[t]
        decreases ivs[n].last + 1 - i
      {
        marks := marks[i := false];
        i := Succ(i);
      }
      forall t ensures InIntervals(ivs[..n + 1], t) <==> InIntervals(ivs[..n], t) || ivs[n].first <= t <= ivs[n].last {
        InPrefix(ivs, n, t);
      }
    }
    assert ivs[..|ivs|] == ivs;
    for n := 0 to |empties|
      invariant forall t :: t in marks <==> InIntervals(ivs, t)
      invariant forall t :: t in marks ==> marks[t] == (t in empties[..n])
    {
      assert empties[..n + 1] == empties[..n] + [empties[n]];
      if empties[n] in marks {
        marks := marks[empties[n] := true];
      }
    }
    assert empties[..|empties|] == empties;
  }

  lemma InPrefix(ivs: seq<Interval>, n: nat, t: int)
    requires n < |ivs|
    ensures InIntervals(ivs[..n + 1], t) <==> InIntervals(ivs[..n], t) || ivs[n].first <= t <= ivs[n].last
  {
    if InIntervals(ivs[..n + 1], t) {
      var i :| 0 <= i < |ivs[..n + 1]| && ivs[..n + 1][i].first <= t <= ivs[..n + 1][i].last;
      assert i < n ==> ivs[..n][i] == ivs[i];
    }
    if InIntervals(ivs[..n], t) {
      var i :| 0 <= i < |ivs[..n]| && ivs[..n][i].first <= t <= ivs[..n][i].last;
      assert ivs[..n + 1][i] == ivs[i];
    }
    if ivs[n].first <= t <= ivs[n].last {
      assert ivs[..n + 1][n] == ivs[n];
    }
  }

  /** The place of a tick in a sorted listing. */
  method Insert(r: seq<TickStatus>, x: TickStatus, desc: bool) returns (r': seq<TickStatus>)
    requires Sorted(r, desc) && forall i :: 0 <= i < |r| ==> r[i].tick != x.tick
    ensures Sorted(r', desc)
    ensures forall y :: y in r' <==> y in r || y == x
  {
    var i := 0;
    while i < |r| && (if desc then r[i].tick > x.tick else r[i].tick < x.tick)
      invariant 0 <= i <= |r|
      invariant forall j :: 0 <= j < i ==> if desc then r[j].tick > x.tick else r[j].tick < x.tick
    {
      i := i + 1;
    }
    r' := r[..i] + [x] + r[i..];
    forall y ensures y in r' <==> y in r || y == x {
      assert r == r[..i] + r[i..];
    }
  }

  /** The listing made from the map, visited in the arbitrary order of a hash map and sorted. */
  method EpochTicks(ivs: seq<Interval>, empties: seq<uint32>, desc: bool) returns (r: seq<TickStatus>)
    requires forall i :: 0 <= i < |ivs| ==> ivs[i].last < MAX_UINT32
    ensures IsListing(r, ivs, empties, desc)
  {
    var marks := MarkTicks(ivs, empties);
    r := [];
    var rest := marks.Keys;
    while rest != {}
      invariant rest <= marks.Keys
      invariant Sorted(r, desc)
      invariant forall x :: x in r <==> x.tick in marks && x.tick !in rest && x.empty == marks[x.tick]
      decreases |rest|
    {
      var t :| t in rest;
      rest := rest - {t};
      forall i | 0 <= i < |r| ensures r[i].tick != t {
        assert r[i] in r;
      }
      r := Insert(r, TickStatus(t, marks[t]), desc);
    }
  }

  // ---------- the endpoints ----------

  /** What the epoch listing answers, given the listing itself. */
  ghost predicate EpochAnswer(a: Archive, epoch: uint32, page: int32, size: int32, desc: bool,
                              r: Result<Page<TickStatus>, ListError>)
  {
    var ivs := Gate.EntryOf(epoch, AllIntervals(a.progress));
    if size <= 0 then r == Err(BadPageSize)
    else if ivs.None? || ivs.value == [] then r == Err(NoIntervals)
    else if epoch !in a.emptyList then r == Err(NoEmptyTicks)
    else exists list :: IsListing(list, ivs.value, a.emptyList[epoch], desc) && r == PageOf(list, page, size)
  }

  method GetEpochTickList(all: seq<EpochIntervals>, emptyList: map<uint32, seq<uint32>>, epoch: uint32, page: int32,
                          size: int32, desc: bool)
    returns (r: Result<Page<TickStatus>, ListError>, ghost list: seq<TickStatus>)
    requires forall i, j :: 0 <= i < j < |all| ==> all[i].epoch != all[j].epoch
    requires forall i, j :: 0 <= i < |all| && 0 <= j < |all[i].intervals| ==> all[i].intervals[j].last < MAX_UINT32
    ensures size <= 0 ==> r == Err(BadPageSize)
    ensures size > 0 ==>
              var ivs := Gate.EntryOf(epoch, all);
              if ivs.None? || ivs.value == [] then r == Err(NoIntervals)
              else if epoch !in emptyList then r == Err(NoEmptyTicks)
              else IsListing(list, ivs.value, emptyList[epoch], desc) && r == PageOf(list, page, size)
  {
    list := [];
    if size <= 0 {
      return Err(BadPageSize), list;
    }
    var ivs: seq<Interval> := [];
    ghost var found: Option<nat> := None;
    for i := 0 to |all|
      invariant found.None? ==> ivs == [] && forall j :: 0 <= j < i ==> all[j].epoch != epoch
      invariant found.Some? ==> found.value < i && all[found.value].epoch == epoch && ivs == all[found.value].intervals
    {
      if all[i].epoch == epoch {
        ivs, found := all[i].intervals, Some(i);
      }
    }
    if found.Some? {
      QuorumLookup.EntryFound(epoch, all, found.value);
    } else {
      ListNotFound(epoch, all);
    }
    if |ivs| == 0 {
      return Err(NoIntervals), list;
    }
    if epoch !in emptyList {
      return Err(NoEmptyTicks), list;
    }
    var ticks := EpochTicks(ivs, emptyList[epoch], desc);
    list := ticks;
    r := SelectPage(ticks, page, size);
  }

  method GetEmptyTickList(emptyList: map<uint32, seq<uint32>>, epoch: uint32, page: int32, size: int32)
    returns (r: Result<Page<uint32>, ListError>)
    ensures r == EmptyAnswer(emptyList, epoch, page, size)
  {
    if size <= 0 {
      return Err(BadPageSize);
    }
    if epoch !in emptyList {
      return Err(NoEmptyTicks);
    }
    r := SelectPage(emptyList[epoch], page, size);
  }

  function EmptyAnswer(emptyList: map<uint32, seq<uint32>>, epoch: uint32, page: int32,
                       size: int32): (r: Result<Page<uint32>, ListError>)
  {
    if size <= 0 then Err(BadPageSize)
    else if epoch !in emptyList then Err(NoEmptyTicks)
    else PageOf(emptyList[epoch], page, size)
  }

  // ---------- what the endpoints answer in reachable states ----------

  /** The ticks recorded in an epoch with whether they were recorded without data, oldest first. */
  function StatusesOf(l: Log, epoch: int): (r: seq<TickStatus>)
  {
    if l == [] then []
    else
      var e := l[|l| - 1];
      StatusesOf(l[..|l| - 1], epoch) + if e.tick.epoch == epoch then [TickStatus(e.tick.tick, IsEmpty(e.data))] else []
  }

  ghost predicate LogAscending(l: Log)
  {
    forall i, j :: 0 <= i < j < |l| ==> l[i].tick.tick < l[j].tick.tick
  }

  lemma {:induction false} TicksBelow(l: Log, epoch: int, bound: nat)
    requires forall i :: 0 <= i < |l| ==> l[i].tick.tick < bound
    ensures forall t :: t in TicksOf(TicksIn(l), epoch) ==> t < bound
    ensures forall t :: t in EmptiesOf(l, epoch) ==> t < bound
    ensures forall x :: x in StatusesOf(l, epoch) ==> x.tick < bound
  {
    if l != [] {
      TicksBelow(l[..|l| - 1], epoch, bound);
      assert TicksIn(l)[..|l| - 1] == TicksIn(l[..|l| - 1]);
    }
  }

  lemma {:induction false} StatusesSorted(l: Log, epoch: int)
    requires LogAscending(l)
    ensures Sorted(StatusesOf(l, epoch), false)
  {
    if l != [] {
      var init, e := l[..|l| - 1], l[|l| - 1];
      StatusesSorted(init, epoch);
      TicksBelow(init, epoch, e.tick.tick);
      forall i | 0 <= i < |StatusesOf(init, epoch)| ensures StatusesOf(init, epoch)[i].tick < e.tick.tick {
        assert StatusesOf(init, epoch)[i] in StatusesOf(init, epoch);
      }
    }
  }

  lemma {:induction false} StatusMembers(l: Log, epoch: int, x: TickStatus)
    requires LogAscending(l)
    ensures x in StatusesOf(l, epoch)
            <==> x.tick in TicksOf(TicksIn(l), epoch) && x.empty == (x.tick in EmptiesOf(l, epoch))
  {
    if l != [] {
      var init, e := l[..|l| - 1], l[|l| - 1];
      StatusMembers(init, epoch, x);
      TicksBelow(init, epoch, e.tick.tick);
      assert TicksIn(l)[..|l| - 1] == TicksIn(init);
      MembersNext(TicksOf(TicksIn(init), epoch), EmptiesOf(init, epoch), StatusesOf(init, epoch), e, epoch, x);
    }
  }

  lemma MembersNext(ticks: seq<uint32>, empties: seq<uint32>, statuses: seq<TickStatus>, e: Entry, epoch: int,
                    x: TickStatus)
    requires x in statuses <==> x.tick in ticks && x.empty == (x.tick in empties)
    requires e.tick.tick !in ticks && e.tick.tick !in empties
    ensures x in statuses + (if e.tick.epoch == epoch then [TickStatus(e.tick.tick, IsEmpty(e.data))] else [])
            <==> && x.tick in ticks + (if e.tick.epoch == epoch then [e.tick.tick] else [])
                 && x.empty
                    == (x.tick in empties + if e.tick.epoch == epoch && IsEmpty(e.data) then [e.tick.tick] else [])
  {}

  lemma LogIsListed(a: Archive, l: Log, epoch: uint32)
    requires ProgressOk(a, l)
    ensures IsListing(StatusesOf(l, epoch), IntervalsOf(a.progress, epoch), EmptiesOf(l, epoch), false)
  {
    LogAscends(a, l);
    ExpansionOf(a, l, epoch);
    StatusesSorted(l, epoch);
    forall x ensures x in StatusesOf(l, epoch) <==>
                       InIntervals(IntervalsOf(a.progress, epoch), x.tick)
                         && x.empty == (x.tick in EmptiesOf(l, epoch)) {
      StatusMembers(l, epoch, x);
      ExpandMembers(IntervalsOf(a.progress, epoch), x.tick);
    }
  }

  function Directed(s: seq<TickStatus>, desc: bool): (r: seq<TickStatus>)
  {
    if desc then Reverse(s) else s
  }

  lemma OnlyListing(list: seq<TickStatus>, up: seq<TickStatus>, ivs: seq<Interval>, empties: seq<uint32>, desc: bool)
    requires IsListing(up, ivs, empties, false) && IsListing(list, ivs, empties, desc)
    ensures list == Directed(up, desc)
  {
    if desc {
      DescendingIsReverse(up, list, ivs, empties);
    } else {
      ListingsAgree(list, up, ivs, empties);
    }
  }

  /** The answer for an epoch with these recorded ticks, if a list of empty ticks is stored or not. */
  function ExpectedAnswer(statuses: seq<TickStatus>, listed: bool, page: int32, size: int32, desc: bool)
    : (r: Result<Page<TickStatus>, ListError>)
  {
    if size <= 0 then Err(BadPageSize)
    else if statuses == [] then Err(NoIntervals)
    else if !listed then Err(NoEmptyTicks)
    else PageOf(Directed(statuses, desc), page, size)
  }

  /** An empty tick was recorded in the epoch, or a start of the program recomputed the epoch. */
  ghost predicate Listed(k: QuorumRecords.Codec, run: seq<Action>, epoch: uint32)
  {
    EmptiesOf(LogOf(k, run), epoch) != [] || Recomputed(run, epoch)
  }

  /** After every run of whole passes, restarted anywhere, the epoch listing serves exactly the ticks
      recorded in the epoch, each flagged exactly if it was recorded without data, in ascending order or
      its exact reverse. It answers with an error exactly if no empty tick was recorded in the epoch and
      no start of the program has recomputed it. */
  lemma EpochListingIsExact(k: QuorumRecords.Codec, run: seq<Action>, epoch: uint32, page: int32, size: int32,
                            desc: bool, r: Result<Page<TickStatus>, ListError>)
    requires ActionsOk(k, run) && Whole(run) && EpochAnswer(FinalArchive(k, run), epoch, page, size, desc, r)
    ensures r == ExpectedAnswer(StatusesOf(LogOf(k, run), epoch), Listed(k, run, epoch), page, size, desc)
  {
    var a, l := FinalArchive(k, run), LogOf(k, run);
    WholeRunKeepsArchive(k, run);
    ListStoredIff(k, run, epoch);
    ListingFromState(a, l, epoch, page, size, desc, r);
  }

  lemma ListingFromState(a: Archive, l: Log, epoch: uint32, page: int32, size: int32, desc: bool,
                         r: Result<Page<TickStatus>, ListError>)
    requires ProgressOk(a, l) && EpochAnswer(a, epoch, page, size, desc, r)
    requires epoch in a.emptyList ==> a.emptyList[epoch] == EmptiesOf(l, epoch)
    ensures r == ExpectedAnswer(StatusesOf(l, epoch), epoch in a.emptyList, page, size, desc)
  {
    LogIsListed(a, l, epoch);
    EpochStoredIff(a, l, epoch);
    AnswerFromLog(a, epoch, page, size, desc, r, IntervalsOf(a.progress, epoch), StatusesOf(l, epoch),
                  EmptiesOf(l, epoch));
  }

  lemma EpochStoredIff(a: Archive, l: Log, epoch: uint32)
    requires ProgressOk(a, l)
    ensures Gate.EntryOf(epoch, AllIntervals(a.progress))
            == if StatusesOf(l, epoch) != [] then Some(IntervalsOf(a.progress, epoch)) else None
    ensures StatusesOf(l, epoch) != [] ==> IntervalsOf(a.progress, epoch) != []
  {
    LogIsListed(a, l, epoch);
    var ivs, statuses := IntervalsOf(a.progress, epoch), StatusesOf(l, epoch);
    if epoch in a.progress.intervals {
      ListFound(a, l, epoch);
      IntervalsInRange(a, l, epoch);
      ListHasIntervals(a.progress, TicksIn(l), epoch);
      assert InIntervals(ivs, ivs[0].first);
      assert TickStatus(ivs[0].first, ivs[0].first in EmptiesOf(l, epoch)) in statuses;
    } else {
      ListNotFound(epoch, AllIntervals(a.progress));
      NothingListed(statuses, EmptiesOf(l, epoch));
    }
  }

  lemma NothingListed(r: seq<TickStatus>, empties: seq<uint32>)
    requires IsListing(r, [], empties, false)
    ensures r == []
  {
    FirstIsMember(r);
  }

  lemma ListHasIntervals(s: State, h: History, epoch: uint32)
    requires Inv(s, h, NO_LOSS) && epoch in s.intervals
    ensures s.intervals[epoch] != []
  {}

  lemma AnswerFromLog(a: Archive, epoch: uint32, page: int32, size: int32, desc: bool,
                      r: Result<Page<TickStatus>, ListError>,
                      ivs: seq<Interval>, statuses: seq<TickStatus>, empties: seq<uint32>)
    requires EpochAnswer(a, epoch, page, size, desc, r)
    requires Gate.EntryOf(epoch, AllIntervals(a.progress)) == if statuses != [] then Some(ivs) else None
    requires statuses != [] ==> ivs != []
    requires epoch in a.emptyList ==> a.emptyList[epoch] == empties
    requires IsListing(statuses, ivs, empties, false)
    ensures r == ExpectedAnswer(statuses, epoch in a.emptyList, page, size, desc)
  {
    if size > 0 && statuses != [] && epoch in a.emptyList {
      var list :| IsListing(list, ivs, empties, desc) && r == PageOf(list, page, size);
      OnlyListing(list, statuses, ivs, empties, desc);
    }
  }

  /** A client that follows the pages of a listed epoch from the first one receives every tick recorded
      in the epoch exactly once, in the order asked for, with its flag. */
  lemma PagesListRecorded(k: QuorumRecords.Codec, run: seq<Action>, epoch: uint32, size: int32, desc: bool,
                          page: int32, r: Result<Page<TickStatus>, ListError>, list: seq<TickStatus>)
    requires ActionsOk(k, run) && Whole(run) && EpochAnswer(FinalArchive(k, run), epoch, page, size, desc, r)
    requires size > 0 && list == Directed(StatusesOf(LogOf(k, run), epoch), desc) && Listed(k, run, epoch)
    requires list != [] && PageCount(|list|, size) < 0x8000_0000
    ensures r == PageOf(list, page, size) && Visited(list, 1, size, 0) == list
  {
    EpochListingIsExact(k, run, epoch, page, size, desc, r);
    ReverseLength(StatusesOf(LogOf(k, run), epoch));
    PagesListAll(list, size);
  }

  /** The entry is about the tick in the epoch, and was recorded without data, or with an empty message,
      exactly if that is said to be empty. */
  predicate Tells(e: Entry, epoch: int, x: TickStatus)
  {
    e.tick.tick == x.tick && e.tick.epoch == epoch && x.empty == (e.data == None || e.data == Some([]))
  }

  /** A status is listed exactly if an entry of the log tells it. */
  lemma {:induction false} StatusMeaning(l: Log, epoch: int, x: TickStatus)
    ensures x in StatusesOf(l, epoch) <==> exists i :: 0 <= i < |l| && Tells(l[i], epoch, x)
  {
    if l != [] {
      StatusMeaning(l[..|l| - 1], epoch, x);
      StatusLast(l, epoch, x);
      TellsLast(l, l[..|l| - 1], epoch, x);
    }
  }

  lemma StatusLast(l: Log, epoch: int, x: TickStatus)
    requires l != []
    ensures x in StatusesOf(l, epoch) <==> x in StatusesOf(l[..|l| - 1], epoch) || Tells(l[|l| - 1], epoch, x)
  {
    var e := l[|l| - 1];
    assert x == TickStatus(e.tick.tick, IsEmpty(e.data)) && e.tick.epoch == epoch <==> Tells(e, epoch, x);
  }

  lemma TellsLast(l: Log, init: Log, epoch: int, x: TickStatus)
    requires l != [] && init == l[..|l| - 1]
    ensures (exists i :: 0 <= i < |l| && Tells(l[i], epoch, x))
            <==> (exists i :: 0 <= i < |init| && Tells(init[i], epoch, x)) || Tells(l[|l| - 1], epoch, x)
  {
    if i :| 0 <= i < |init| && Tells(init[i], epoch, x) {
      assert Tells(l[i], epoch, x);
    }
    if i :| 0 <= i < |l| && Tells(l[i], epoch, x) {
      assert i < |init| ==> Tells(init[i], epoch, x);
    }
  }

  /** The listing of the empty ticks of an epoch serves exactly the ticks recorded without data, and an
      error under the same condition. */
  lemma EmptyListingIsExact(k: QuorumRecords.Codec, run: seq<Action>, epoch: uint32, page: int32, size: int32)
    requires ActionsOk(k, run) && Whole(run)
    ensures EmptyAnswer(FinalArchive(k, run).emptyList, epoch, page, size) ==
            if size <= 0 then Err(BadPageSize)
            else if !Listed(k, run, epoch) then Err(NoEmptyTicks)
            else PageOf(EmptiesOf(LogOf(k, run), epoch), page, size)
  {
    ListStoredIff(k, run, epoch);
  }
}
