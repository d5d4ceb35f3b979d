/** Paging over transfers grouped by tick: the window that the scan cuts out while it counts, the
    pagination record, and the walk of a client through all pages. */
module Paging {
  import opened Bytes
  import opened Wrappers
  import opened Keys
  import opened Selection

  datatype Tx = Tx(source: Identity, dest: Identity, amount: int, inputType: uint32, id: bytes)

  /** An identity's transfers of one tick. */
  datatype PerTick = PerTick(tick: uint32, identity: Identity, transactions: seq<Tx>)

  // ---------- what a page is ----------

  /** The transactions that pass the filter. */
  function Filter(scOnly: bool, txs: seq<Tx>): (r: seq<Tx>)
  {
    if !scOnly then txs
    else if txs == [] then []
    else Filter(true, txs[..|txs| - 1]) + if txs[|txs| - 1].inputType != 0 then [txs[|txs| - 1]] else []
  }

  /** All filtered transactions of the groups, in scan order. */
  function Listing(gs: seq<PerTick>, scOnly: bool): (r: seq<Tx>)
  {
    if gs == [] then [] else Listing(gs[..|gs| - 1], scOnly) + Filter(scOnly, gs[|gs| - 1].transactions)
  }

  function Clamp(i: int, n: nat): (r: nat)
    ensures r <= n
  {
    if i < 0 then 0 else if i > n then n else i
  }

  /** The part of a list between two positions, which may lie outside it. */
  function Window<T>(s: seq<T>, from: int, to: int): (r: seq<T>)
  {
    if Clamp(from, |s|) <= Clamp(to, |s|) then s[Clamp(from, |s|)..Clamp(to, |s|)] else []
  }

  /** The part of one group that lies between two positions, unless that is nothing. */
  function Part(g: PerTick, scOnly: bool, from: int, to: int): (r: seq<PerTick>)
    ensures |r| <= 1
  {
    var txs := Window(Filter(scOnly, g.transactions), from, to);
    if txs == [] then [] else [PerTick(g.tick, g.identity, txs)]
  }

  /** The groups of the page between two positions of the listing. */
  function PageGroups(gs: seq<PerTick>, scOnly: bool, from: int, to: int): (r: seq<PerTick>)
  {
    if gs == [] then []
    else
      var init, g := gs[..|gs| - 1], gs[|gs| - 1];
      var n := |Listing(init, scOnly)|;
      PageGroups(init, scOnly, from, to) + Part(g, scOnly, from - n, to - n)
  }

  // ---------- the loops ----------

  method FilterTransactions(scOnly: bool, perTick: PerTick) returns (txs: seq<Tx>)
    ensures txs == Filter(scOnly, perTick.transactions)
  {
    if !scOnly {
      return perTick.transactions;
    }
    txs := [];
    for i := 0 to |perTick.transactions|
      invariant txs == Filter(true, perTick.transactions[..i])
    {
      assert perTick.transactions[..i + 1][..i] == perTick.transactions[..i];
      if perTick.transactions[i].inputType != 0 {
        txs := txs + [perTick.transactions[i]];
      }
    }
    assert perTick.transactions[..|perTick.transactions|] == perTick.transactions;
  }

  /** The filter keeps exactly the transactions that are asked for, in their order: all of them, or those
      with an input type. */
  lemma {:induction false} FilterSelects(scOnly: bool, txs: seq<Tx>, keep: Tx -> bool)
    requires forall tx :: keep(tx) <==> !scOnly || tx.inputType != 0
    ensures Selects(txs, Filter(scOnly, txs), keep)
  {
    if !scOnly {
      SelectsAll(txs, keep);
    } else if txs == [] {
      SelectsNone(keep);
    } else {
      FilterSelects(scOnly, txs[..|txs| - 1], keep);
      SelectsLast(txs, Filter(true, txs[..|txs| - 1]), Filter(true, txs), keep);
    }
  }

  /** One group of the scan: advances the running index and appends the part of the group that lies on
      the page. */
  method GetTransfersPage(perTick: PerTick, index: nat, groups: seq<PerTick>, pageStart: int, pageEnd: int,
                          scOnly: bool)
    returns (index': nat, groups': seq<PerTick>)
    requires pageStart <= pageEnd
    ensures index' == index + |Filter(scOnly, perTick.transactions)|
    ensures groups' == groups + Part(perTick, scOnly, pageStart - index, pageEnd - index)
  {
    var txs := FilterTransactions(scOnly, perTick);
    groups' := groups;
    var count := |txs|;
    if count > 0 && index + count >= pageStart && index < pageEnd {
      var startIndex := if pageStart - index > 0 then pageStart - index else 0;
      var endIndex := if pageEnd - index < count then pageEnd - index else count;
      if index + count >= pageStart && endIndex > startIndex {
        groups' := groups + [PerTick(perTick.tick, perTick.identity, txs[startIndex..endIndex])];
      }
    }
    index' := index + count;
  }

  /** The groups in scan order: from the first tick on, or from the last tick back. */
  function Directed(gs: seq<PerTick>, descending: bool): (r: seq<PerTick>)
  {
    if descending then Reverse(gs) else gs
  }

  lemma DirectedSize(gs: seq<PerTick>, descending: bool)
    ensures |Directed(gs, descending)| == |gs|
  {
    ReverseLength(gs);
  }

  lemma DirectedAt(gs: seq<PerTick>, descending: bool, i: nat)
    requires i < |gs|
    ensures |Directed(gs, descending)| == |gs|
    ensures Directed(gs, descending)[i] == if descending then gs[|gs| - 1 - i] else gs[i]
  {
    ReverseLength(gs);
    ReverseAt(gs, i);
  }

  lemma PageGroupsSnoc(gs: seq<PerTick>, g: PerTick, scOnly: bool, from: int, to: int)
    ensures var n := |Listing(gs, scOnly)|;
            PageGroups(gs + [g], scOnly, from, to)
            == PageGroups(gs, scOnly, from, to) + Part(g, scOnly, from - n, to - n)
    ensures Listing(gs + [g], scOnly) == Listing(gs, scOnly) + Filter(scOnly, g.transactions)
  {
    assert (gs + [g])[..|gs|] == gs;
  }

  lemma PrefixSnoc<T>(s: seq<T>, i: nat)
    requires i < |s|
    ensures s[..i + 1] == s[..i] + [s[i]]
  {}

  lemma FullPrefix<T>(s: seq<T>)
    ensures s[..|s|] == s
  {}

  /** The scan over the groups, in the direction asked for. */
  method ScanPage(scanned: seq<PerTick>, start: int, end: int, descending: bool, scOnly: bool)
    returns (groups: seq<PerTick>, total: nat)
    requires start <= end
    ensures groups == PageGroups(Directed(scanned, descending), scOnly, start, end)
    ensures total == |Listing(Directed(scanned, descending), scOnly)|
  {
    groups, total := [], 0;
    DirectedSize(scanned, descending);
    ghost var gs := Directed(scanned, descending);
    ghost var done: seq<PerTick> := [];
    for i := 0 to |scanned|
      invariant done == gs[..i]
      invariant groups == PageGroups(done, scOnly, start, end)
      invariant total == |Listing(done, scOnly)|
    {
      var g := if descending then scanned[|scanned| - 1 - i] else scanned[i];
      DirectedAt(scanned, descending, i);
      PrefixSnoc(gs, i);
      PageGroupsSnoc(done, g, scOnly, start, end);
      total, groups := GetTransfersPage(g, total, groups, start, end, scOnly);
      done := done + [g];
    }
    FullPrefix(gs);
  }

  /** The paged query over the groups that the iterator visits. Positions are 64-bit integers. */
  method GetTransactionsForEntityPaged(scanned: seq<PerTick>, page: uint32, size: uint32, descending: bool,
                                       scOnly: bool)
    returns (groups: seq<PerTick>, total: nat)
    requires page * size + size < 0x8000_0000_0000_0000
    ensures groups == PageGroups(Directed(scanned, descending), scOnly, page * size, page * size + size)
    ensures total == |Listing(scanned, scOnly)|
  {
    var start := page * size;
    groups, total := ScanPage(scanned, start, start + size, descending, scOnly);
    DirectedLength(scanned, descending, scOnly);
  }

  // ---------- paging is slicing ----------

  lemma WindowConcat<T>(a: seq<T>, b: seq<T>, from: int, to: int)
    requires from <= to
    ensures Window(a + b, from, to) == Window(a, from, to) + Window(b, from - |a|, to - |a|)
  {
    var s := a + b;
    var i, j := Clamp(from, |s|), Clamp(to, |s|);
    if j <= |a| {
      SliceBefore(a, b, i, j);
    } else if |a| <= i {
      SliceAfter(a, b, i, j);
    } else {
      SliceAcross(a, b, i, j);
    }
  }

  lemma SliceBefore<T>(a: seq<T>, b: seq<T>, i: nat, j: nat)
    requires i <= j <= |a|
    ensures (a + b)[i..j] == a[i..j]
  {}

  lemma SliceAfter<T>(a: seq<T>, b: seq<T>, i: nat, j: nat)
    requires |a| <= i <= j <= |a| + |b|
    ensures (a + b)[i..j] == b[i - |a|..j - |a|]
  {}

  lemma SliceAcross<T>(a: seq<T>, b: seq<T>, i: nat, j: nat)
    requires i <= |a| <= j <= |a| + |b|
    ensures (a + b)[i..j] == a[i..] + b[..j - |a|]
  {}

  /** Flattening a page. */
  function Flatten(gs: seq<PerTick>): (r: seq<Tx>)
  {
    if gs == [] then [] else Flatten(gs[..|gs| - 1]) + gs[|gs| - 1].transactions
  }

  lemma {:induction false} FlattenConcat(a: seq<PerTick>, b: seq<PerTick>)
    ensures Flatten(a + b) == Flatten(a) + Flatten(b)
  {
    if b == [] {
      assert a + b == a;
    } else {
      var init, g := b[..|b| - 1], b[|b| - 1];
      FlattenConcat(a, init);
      LastSnoc(b);
      Associative(a, init, [g]);
      FlattenGroup(a + init, g);
      FlattenGroup(init, g);
      Associative(Flatten(a), Flatten(init), g.transactions);
    }
  }

  lemma Associative<T>(a: seq<T>, b: seq<T>, c: seq<T>)
    ensures (a + b) + c == a + (b + c)
  {}

  lemma FlattenGroup(gs: seq<PerTick>, g: PerTick)
    ensures Flatten(gs + [g]) == Flatten(gs) + g.transactions
  {
    assert (gs + [g])[..|gs|] == gs;
  }

  lemma FlattenPart(g: PerTick, scOnly: bool, from: int, to: int)
    ensures Flatten(Part(g, scOnly, from, to)) == Window(Filter(scOnly, g.transactions), from, to)
  {
    var part := Part(g, scOnly, from, to);
    if part != [] {
      assert part[..0] == [];
    }
  }

  /** The page flattened is the listing cut to the page's positions. */
  lemma {:induction false} PageIsSlice(gs: seq<PerTick>, scOnly: bool, from: int, to: int)
    requires from <= to
    ensures Flatten(PageGroups(gs, scOnly, from, to)) == Window(Listing(gs, scOnly), from, to)
  {
    if gs != [] {
      var init, g := gs[..|gs| - 1], gs[|gs| - 1];
      PageIsSlice(init, scOnly, from, to);
      FlattenSnoc(PageGroups(init, scOnly, from, to), Listing(init, scOnly), g, scOnly, from, to);
    }
  }

  lemma FlattenSnoc(page: seq<PerTick>, list: seq<Tx>, g: PerTick, scOnly: bool, from: int, to: int)
    requires from <= to
    requires Flatten(page) == Window(list, from, to)
    ensures Flatten(page + Part(g, scOnly, from - |list|, to - |list|))
            == Window(list + Filter(scOnly, g.transactions), from, to)
  {
    FlattenConcat(page, Part(g, scOnly, from - |list|, to - |list|));
    FlattenPart(g, scOnly, from - |list|, to - |list|);
    WindowConcat(list, Filter(scOnly, g.transactions), from, to);
  }

  /** Ticks ordered one way without repetition. */
  ghost predicate Ordered(gs: seq<PerTick>, descending: bool)
  {
    forall i, j :: 0 <= i < j < |gs| ==> if descending then gs[i].tick > gs[j].tick else gs[i].tick < gs[j].tick
  }

  /** The group is a non-empty part of the filtered transactions of one of the scanned groups. */
  ghost predicate PartOfOne(gs: seq<PerTick>, scOnly: bool, g: PerTick)
  {
    exists i, from, to :: 0 <= i < |gs| && Part(gs[i], scOnly, from, to) == [g]
  }

  ghost predicate CutFrom(page: seq<PerTick>, gs: seq<PerTick>, scOnly: bool)
  {
    forall j :: 0 <= j < |page| ==> page[j].transactions != [] && PartOfOne(gs, scOnly, page[j])
  }

  lemma PartOfMore(gs: seq<PerTick>, g: PerTick, scOnly: bool, x: PerTick)
    requires PartOfOne(gs, scOnly, x)
    ensures PartOfOne(gs + [g], scOnly, x)
  {
    var i, from, to :| 0 <= i < |gs| && Part(gs[i], scOnly, from, to) == [x];
    assert Part((gs + [g])[i], scOnly, from, to) == [x];
  }

  lemma PartOfLast(gs: seq<PerTick>, g: PerTick, scOnly: bool, from: int, to: int)
    ensures CutFrom(Part(g, scOnly, from, to), gs + [g], scOnly)
  {
    var part := Part(g, scOnly, from, to);
    if part != [] {
      assert part == [part[0]];
      assert Part((gs + [g])[|gs|], scOnly, from, to) == [part[0]];
    }
  }

  lemma OrderedInit(gs: seq<PerTick>, g: PerTick, scOnly: bool, descending: bool, x: PerTick)
    requires Ordered(gs + [g], descending) && PartOfOne(gs, scOnly, x)
    ensures if descending then x.tick > g.tick else x.tick < g.tick
  {
    var i, from, to :| 0 <= i < |gs| && Part(gs[i], scOnly, from, to) == [x];
    assert [x][0].tick == gs[i].tick;
    assert (gs + [g])[i] == gs[i] && (gs + [g])[|gs|] == g;
  }

  /** Appending the last group's part to a page keeps its shape. */
  lemma ShapeSnoc(page: seq<PerTick>, part: seq<PerTick>, gs: seq<PerTick>, g: PerTick, scOnly: bool, descending: bool)
    requires Ordered(gs + [g], descending) && Ordered(page, descending) && CutFrom(page, gs, scOnly)
    requires |part| <= 1 && CutFrom(part, gs + [g], scOnly) && (part != [] ==> part[0].tick == g.tick)
    ensures Ordered(page + part, descending) && CutFrom(page + part, gs + [g], scOnly)
  {
    forall j | 0 <= j < |page| ensures page[j].transactions != [] && PartOfOne(gs + [g], scOnly, page[j]) {
      PartOfMore(gs, g, scOnly, page[j]);
    }
    CutFromBoth(page, part, gs + [g], scOnly);
    forall j | 0 <= j < |page| ensures if descending then page[j].tick > g.tick else page[j].tick < g.tick {
      OrderedInit(gs, g, scOnly, descending, page[j]);
    }
    if part != [] {
      OrderedSnoc(page, part[0], descending);
      assert part == [part[0]];
    } else {
      assert page + part == page;
    }
  }

  lemma CutFromBoth(a: seq<PerTick>, b: seq<PerTick>, gs: seq<PerTick>, scOnly: bool)
    requires CutFrom(a, gs, scOnly) && CutFrom(b, gs, scOnly)
    ensures CutFrom(a + b, gs, scOnly)
  {
    var s := a + b;
    forall j | 0 <= j < |s| ensures s[j].transactions != [] && PartOfOne(gs, scOnly, s[j]) {
      if j < |a| {
        assert s[j] == a[j];
      } else {
        assert s[j] == b[j - |a|];
      }
    }
  }

  lemma OrderedSnoc(page: seq<PerTick>, x: PerTick, descending: bool)
    requires Ordered(page, descending)
    requires forall j :: 0 <= j < |page| ==> if descending then page[j].tick > x.tick else page[j].tick < x.tick
    ensures Ordered(page + [x], descending)
  {}

  lemma LastSnoc<T>(s: seq<T>)
    requires s != []
    ensures s == s[..|s| - 1] + [s[|s| - 1]]
  {}

  lemma OrderedPrefix(gs: seq<PerTick>, descending: bool)
    requires gs != [] && Ordered(gs, descending)
    ensures Ordered(gs[..|gs| - 1], descending)
  {}

  /** A page has no empty group and at most one group per tick, in scan order, and each group is a part
      of the filtered transactions of the scanned group of its tick. */
  lemma {:induction false} PageShape(gs: seq<PerTick>, scOnly: bool, from: int, to: int, descending: bool)
    requires Ordered(gs, descending)
    ensures Ordered(PageGroups(gs, scOnly, from, to), descending)
    ensures CutFrom(PageGroups(gs, scOnly, from, to), gs, scOnly)
  {
    if gs != [] {
      var init, g := gs[..|gs| - 1], gs[|gs| - 1];
      OrderedPrefix(gs, descending);
      PageShape(init, scOnly, from, to, descending);
      var n := |Listing(init, scOnly)|;
      PartOfLast(init, g, scOnly, from - n, to - n);
      LastSnoc(gs);
      ShapeSnoc(PageGroups(init, scOnly, from, to), Part(g, scOnly, from - n, to - n), init, g, scOnly, descending);
    }
  }

  /** Reading backwards visits the same groups in descending order of their ticks. */
  lemma DirectedOrdered(gs: seq<PerTick>, descending: bool)
    requires Ordered(gs, false)
    ensures Ordered(Directed(gs, descending), descending)
    ensures forall g :: g in Directed(gs, descending) <==> g in gs
  {
    var r := Directed(gs, descending);
    DirectedSize(gs, descending);
    forall i | 0 <= i < |gs| ensures r[i] == if descending then gs[|gs| - 1 - i] else gs[i] {
      DirectedAt(gs, descending, i);
    }
    forall g ensures g in r <==> g in gs {
      if g in gs {
        var i :| 0 <= i < |gs| && gs[i] == g;
        assert r[if descending then |gs| - 1 - i else i] == g;
      }
      if g in r {
        var i :| 0 <= i < |r| && r[i] == g;
        DirectedAt(gs, descending, i);
        assert gs[if descending then |gs| - 1 - i else i] == g;
      }
    }
    forall i, j | 0 <= i < j < |r| ensures if descending then r[i].tick > r[j].tick else r[i].tick < r[j].tick {
      DirectedAt(gs, descending, i);
      DirectedAt(gs, descending, j);
    }
  }

  lemma {:induction false} ListingConcat(a: seq<PerTick>, b: seq<PerTick>, scOnly: bool)
    ensures Listing(a + b, scOnly) == Listing(a, scOnly) + Listing(b, scOnly)
  {
    if b == [] {
      assert a + b == a;
    } else {
      ListingConcat(a, b[..|b| - 1], scOnly);
      assert (a + b)[..|a + b| - 1] == a + b[..|b| - 1];
    }
  }

  lemma {:induction false} ListingLength(gs: seq<PerTick>, scOnly: bool)
    ensures |Listing(Reverse(gs), scOnly)| == |Listing(gs, scOnly)|
  {
    if gs != [] {
      ListingLength(gs[1..], scOnly);
      ListingConcat(Reverse(gs[1..]), [gs[0]], scOnly);
      ListingConcat([gs[0]], gs[1..], scOnly);
      assert gs == [gs[0]] + gs[1..];
    }
  }

  // ---------- the pagination record ----------

  /** Truncation to a signed 32-bit integer. */
  function ToInt32(n: int): (r: int)
    ensures -0x8000_0000 <= n < 0x8000_0000 ==> r == n
  {
    (n + 0x8000_0000) % 0x1_0000_0000 - 0x8000_0000
  }

  datatype Pagination = Pagination(
    totalRecords: int, currentPage: int, totalPages: int, pageSize: int, nextPage: int, previousPage: int)

  /** How many pages of a size it takes to hold a number of entries. */
  function PageCount(total: nat, size: nat): (n: nat)
    requires size > 0
  {
    if total == 0 then 0 else if total <= size then 1 else 1 + PageCount(total - size, size)
  }

  /** The quotient, plus one for a remainder, is that number. */
  lemma {:induction false} PageCountIsQuotient(total: nat, size: nat)
    requires size > 0
    ensures PageCount(total, size) == total / size + if total % size != 0 then 1 else 0
  {
    if total > size {
      PageCountIsQuotient(total - size, size);
      DivisionStep(total, size);
    }
  }

  lemma DivisionStep(total: nat, size: nat)
    requires 0 < size <= total
    ensures total / size == (total - size) / size + 1 && total % size == (total - size) % size
  {
    var q, r := (total - size) / size, (total - size) % size;
    assert total == q * size + r + size == (q + 1) * size + r;
    QuotientUnique(total, size, q + 1, r);
  }

  lemma QuotientUnique(n: nat, size: nat, q: nat, r: nat)
    requires r < size && n == q * size + r
    ensures n / size == q && n % size == r
  {
    var q', r' := n / size, n % size;
    assert (q' + 1) * size == q' * size + size && (q + 1) * size == q * size + size;
    if q' < q {
      MulMonotone(q' + 1, q, size);
    } else if q < q' {
      MulMonotone(q + 1, q', size);
    }
  }

  function Min(a: int, b: int): (r: int)
  {
    if a < b then a else b
  }

  /** The pagination record; the arguments are checked before it is made. */
  function PaginationOf(total: int, page: int, size: int): (r: Option<Pagination>)
  {
    if page < 1 || size < 1 || total < 0 then None
    else
      var pages := PageCount(total, size);
      var next := if page + 1 > pages then -1 else page + 1;
      var previous := if page - 1 == 0 then -1 else page - 1;
      Some(Pagination(ToInt32(total), ToInt32(Min(total, page)), ToInt32(pages), ToInt32(size),
                      ToInt32(next), ToInt32(Min(pages, previous))))
  }

  method GetPaginationInformation(total: int, page: int, size: int) returns (r: Option<Pagination>)
    ensures r == PaginationOf(total, page, size)
  {
    if page < 1 || size < 1 || total < 0 {
      return None;
    }
    var pages := total / size;
    if total % size != 0 {
      pages := pages + 1;
    }
    PageCountIsQuotient(total, size);
    var current := Min(total, page);
    var next := page + 1;
    if next > pages {
      next := -1;
    }
    var previous := page - 1;
    if previous == 0 {
      previous := -1;
    }
    previous := Min(pages, previous);
    r := Some(Pagination(ToInt32(total), ToInt32(current), ToInt32(pages), ToInt32(size), ToInt32(next),
                         ToInt32(previous)));
  }

  const MAX_PAGE_SIZE: uint32 := 250
  const DEFAULT_PAGE_SIZE: uint32 := 100

  datatype Response = Response(groups: seq<PerTick>, pagination: Pagination)

  /** A size of zero asks for the default one. */
  function PageSize(size: uint32): (n: uint32)
    ensures n > 0
  {
    if size == 0 then DEFAULT_PAGE_SIZE else size
  }

  /** The transfers endpoint: page sizes above the maximum are refused, zero means the default, and
      pages are numbered from one. */
  function Respond(gs: seq<PerTick>, page: uint32, size: uint32, scOnly: bool): (r: Option<Response>)
  {
    if size > MAX_PAGE_SIZE then None
    else
      var n := PageSize(size);
      var p: nat := if page == 0 then 0 else page - 1;
      PageResponse(gs, p, n, scOnly)
  }

  function PageResponse(gs: seq<PerTick>, p: nat, n: nat, scOnly: bool): (r: Option<Response>)
  {
    Assemble(PageGroups(gs, scOnly, p * n, p * n + n), PaginationOf(|Listing(gs, scOnly)|, p + 1, n))
  }

  function Assemble(groups: seq<PerTick>, pagination: Option<Pagination>): (r: Option<Response>)
  {
    match pagination
    case None => None
    case Some(record) => Some(Response(groups, record))
  }

  /** The endpoint over the groups that the iterator visits. */
  method GetIdentityTransfersInTickRange(scanned: seq<PerTick>, page: uint32, size: uint32, descending: bool,
                                         scOnly: bool)
    returns (r: Option<Response>)
    ensures r == Respond(Directed(scanned, descending), page, size, scOnly)
  {
    if size > MAX_PAGE_SIZE {
      return None;
    }
    var n: uint32 := if size == 0 then DEFAULT_PAGE_SIZE else size;
    var p: uint32 := if page == 0 then 0 else page - 1;
    r := RespondPage(scanned, p, n, descending, scOnly);
  }

  method RespondPage(scanned: seq<PerTick>, p: uint32, n: uint32, descending: bool, scOnly: bool)
    returns (r: Option<Response>)
    requires n <= MAX_PAGE_SIZE
    ensures r == PageResponse(Directed(scanned, descending), p, n, scOnly)
  {
    MulBounded(p, n);
    var groups, total := GetTransactionsForEntityPaged(scanned, p, n, descending, scOnly);
    DirectedLength(scanned, descending, scOnly);
    var pagination := GetPaginationInformation(total, p + 1, n);
    r := Assemble(groups, pagination);
  }

  lemma DirectedLength(gs: seq<PerTick>, descending: bool, scOnly: bool)
    ensures |Listing(Directed(gs, descending), scOnly)| == |Listing(gs, scOnly)|
  {
    ListingLength(gs, scOnly);
  }

  lemma MulBounded(p: uint32, n: nat)
    requires n <= MAX_PAGE_SIZE
    ensures p * n + n < 0x8000_0000_0000_0000
  {
    MulMonotone(n, MAX_PAGE_SIZE, p);
    assert p * n == n * p;
  }

  // ---------- the walk through all pages ----------

  lemma {:induction false} PageCountBounds(total: nat, size: nat)
    requires size > 0
    ensures PageCount(total, size) * size >= total
    ensures total > 0 ==> PageCount(total, size) >= 1 && (PageCount(total, size) - 1) * size < total
    ensures PageCount(total, size) <= total
  {
    if total > size {
      PageCountBounds(total - size, size);
      var n := PageCount(total - size, size);
      assert (n + 1) * size == n * size + size;
      assert n * size == (n - 1) * size + size;
    }
  }

  /** There is a next page exactly if the page does not reach the end of the list. */
  lemma NextPageIff(total: nat, page: nat, size: nat)
    requires size > 0 && page >= 1
    ensures page + 1 <= PageCount(total, size) <==> page * size < total
  {
    var n := PageCount(total, size);
    PageCountBounds(total, size);
    if page + 1 <= n {
      MulMonotone(page, n - 1, size);
    } else {
      MulMonotone(n, page, size);
    }
  }

  /** The pagination record of a page: the numbers asked for, the number of pages it takes, the next page
      exactly if entries are left after this one, and the page before it, if any, but none beyond the last. */
  lemma PaginationMeaning(total: nat, page: nat, size: nat) returns (pages: nat)
    requires 1 <= page < 0x7FFF_FFFF && 1 <= size < 0x8000_0000 && total < 0x8000_0000
    ensures pages * size >= total && (total == 0 ==> pages == 0) && (total > 0 ==> (pages - 1) * size < total)
    ensures PaginationOf(total, page, size) == Some(Pagination(
              total, if total < page then total else page, pages, size,
              if page * size < total then page + 1 else -1,
              if page == 1 then -1 else if page - 1 <= pages then page - 1 else pages))
  {
    pages := PageCount(total, size);
    PageCountBounds(total, size);
    NextPageIff(total, page, size);
  }

  /** The endpoint refuses sizes above 250, takes size 0 for 100 and page 0 for page 1, and answers page `p` of
      size `n` with the groups of the entries from (p - 1) * n on, `n` of them. */
  lemma RequestLimits(gs: seq<PerTick>, page: uint32, size: uint32, scOnly: bool)
    ensures Respond(gs, page, size, scOnly).None? <==> size > 250
    ensures Respond(gs, page, 0, scOnly) == Respond(gs, page, 100, scOnly)
    ensures Respond(gs, 0, size, scOnly) == Respond(gs, 1, size, scOnly)
    ensures 1 <= size <= 250 && page >= 1 ==>
              var from := (page - 1) * size;
              Respond(gs, page, size, scOnly).value.groups == PageGroups(gs, scOnly, from, from + size)
  {}

  lemma {:induction false} MulMonotone(a: nat, b: nat, size: nat)
    requires a <= b
    ensures a * size <= b * size
  {
    if a < b {
      MulMonotone(a, b - 1, size);
      assert b * size == (b - 1) * size + size;
    }
  }

  /** The endpoint accepts the size, and the number of pages is a positive signed 32-bit integer. */
  predicate Walkable(gs: seq<PerTick>, size: uint32, scOnly: bool)
  {
    size <= MAX_PAGE_SIZE && PageCount(|Listing(gs, scOnly)|, PageSize(size)) < 0x8000_0000
  }

  /** The pages a client receives that starts at a page and follows the next-page numbers. */
  function Walk(gs: seq<PerTick>, page: uint32, size: uint32, scOnly: bool): (r: seq<seq<PerTick>>)
    requires Walkable(gs, size, scOnly) && page >= 1
    decreases |Listing(gs, scOnly)| + 1 - page
  {
    ResponseAt(gs, page, size, scOnly);
    PageCountBounds(|Listing(gs, scOnly)|, PageSize(size));
    var response := Respond(gs, page, size, scOnly).value;
    var next := response.pagination.nextPage;
    [response.groups] + if next == -1 then [] else Walk(gs, next, size, scOnly)
  }

  function FlattenPages(pages: seq<seq<PerTick>>): (r: seq<Tx>)
  {
    if pages == [] then [] else Flatten(pages[0]) + FlattenPages(pages[1..])
  }

  lemma WindowJoin<T>(s: seq<T>, a: nat, b: nat)
    requires a <= b
    ensures Window(s, a, b) + Window(s, b, |s|) == Window(s, a, |s|)
  {}

  /** The next-page number survives its 32-bit representation. */
  lemma NextPageValue(total: nat, page: nat, size: nat)
    requires size > 0 && page >= 1 && PageCount(total, size) < 0x8000_0000
    ensures PaginationOf(total, page, size).Some?
    ensures PaginationOf(total, page, size).value.nextPage
            == if page + 1 <= PageCount(total, size) then page + 1 else -1
  {}

  lemma ResponseAt(gs: seq<PerTick>, page: uint32, size: uint32, scOnly: bool)
    requires Walkable(gs, size, scOnly) && page >= 1
    ensures Respond(gs, page, size, scOnly).Some?
    ensures var n := PageSize(size);
            Respond(gs, page, size, scOnly).value.groups == PageGroups(gs, scOnly, (page - 1) * n, (page - 1) * n + n)
    ensures Respond(gs, page, size, scOnly).value.pagination.nextPage
            == if page + 1 <= PageCount(|Listing(gs, scOnly)|, PageSize(size)) then page + 1 else -1
  {
    NextPageValue(|Listing(gs, scOnly)|, page, PageSize(size));
  }

  lemma WindowToEnd<T>(s: seq<T>, from: int, to: int)
    requires to >= |s|
    ensures Window(s, from, to) == Window(s, from, |s|)
  {}

  lemma WholeWindow<T>(s: seq<T>)
    ensures Window(s, 0, |s|) == s
  {}

  lemma FlattenPagesCons(first: seq<PerTick>, rest: seq<seq<PerTick>>)
    ensures FlattenPages([first] + rest) == Flatten(first) + FlattenPages(rest)
  {
    assert ([first] + rest)[1..] == rest;
  }

  /** A page followed by the pages after it, as positions of the listing. */
  lemma PagesJoin(list: seq<Tx>, first: seq<PerTick>, rest: seq<seq<PerTick>>, from: nat, to: nat)
    requires from <= to
    requires Flatten(first) == Window(list, from, to)
    requires if to < |list| then FlattenPages(rest) == Window(list, to, |list|) else rest == []
    ensures FlattenPages([first] + rest) == Window(list, from, |list|)
  {
    FlattenPagesCons(first, rest);
    if to < |list| {
      WindowJoin(list, from, to);
    } else {
      WindowToEnd(list, from, to);
    }
  }

  lemma NextStart(page: nat, size: nat)
    requires page >= 1
    ensures (page - 1) * size + size == page * size
  {}

  /** Consecutive pages of one size, from a position up to the end of the listing. */
  function Pages(page: nat -> seq<PerTick>, from: nat, size: nat, total: nat): (r: seq<seq<PerTick>>)
    requires size > 0
    decreases total - from
  {
    [page(from)] + if from + size < total then Pages(page, from + size, size, total) else []
  }

  /** If every page is a slice of the listing, the pages hold the rest of the listing. */
  lemma {:induction false} PagesCollect(page: nat -> seq<PerTick>, from: nat, size: nat, list: seq<Tx>)
    requires size > 0
    requires forall p: nat :: Flatten(page(p)) == Window(list, p, p + size)
    ensures FlattenPages(Pages(page, from, size, |list|)) == Window(list, from, |list|)
    decreases |list| - from
  {
    var rest := [];
    if from + size < |list| {
      PagesCollect(page, from + size, size, list);
      rest := Pages(page, from + size, size, |list|);
    }
    PagesJoin(list, page(from), rest, from, from + size);
    PagesCons(page, page(from), rest, from, size, |list|);
  }

  /** One request of the walk. */
  lemma WalkStep(gs: seq<PerTick>, page: uint32, size: uint32, scOnly: bool, n: nat, from: nat)
    requires Walkable(gs, size, scOnly) && page >= 1 && n == PageSize(size) && from == (page - 1) * n
    ensures from + n < |Listing(gs, scOnly)| ==> page < 0x8000_0000 && page < |Listing(gs, scOnly)|
    ensures Walk(gs, page, size, scOnly)
            == [PageGroups(gs, scOnly, from, from + n)]
               + if from + n < |Listing(gs, scOnly)| then Walk(gs, page + 1, size, scOnly) else []
  {
    ResponseAt(gs, page, size, scOnly);
    NextAt(|Listing(gs, scOnly)|, page, n, from);
  }

  /** The next page exists exactly if the page that starts here does not reach the end. */
  lemma NextAt(total: nat, page: nat, n: nat, from: nat)
    requires n > 0 && page >= 1 && from == (page - 1) * n
    ensures page + 1 <= PageCount(total, n) <==> from + n < total
    ensures PageCount(total, n) <= total
  {
    NextPageIff(total, page, n);
    PageCountBounds(total, n);
    NextStart(page, n);
  }

  /** The page that starts at a position. */
  function PageAt(gs: seq<PerTick>, size: nat, scOnly: bool): (r: nat -> seq<PerTick>)
  {
    (from: nat) => PageGroups(gs, scOnly, from, from + size)
  }

  lemma PageValue(gs: seq<PerTick>, size: nat, scOnly: bool, p: nat)
    ensures PageAt(gs, size, scOnly)(p) == PageGroups(gs, scOnly, p, p + size)
  {}

  lemma PagesCons(page: nat -> seq<PerTick>, first: seq<PerTick>, rest: seq<seq<PerTick>>, from: nat, size: nat,
                  total: nat)
    requires size > 0 && page(from) == first
    requires rest == if from + size < total then Pages(page, from + size, size, total) else []
    ensures Pages(page, from, size, total) == [first] + rest
  {}

  /** Following the next-page numbers visits consecutive pages. */
  lemma {:induction false} WalkIsPages(gs: seq<PerTick>, page: uint32, size: uint32, scOnly: bool, n: nat, from: nat)
    requires Walkable(gs, size, scOnly) && page >= 1 && n == PageSize(size) && from == (page - 1) * n
    ensures Walk(gs, page, size, scOnly) == Pages(PageAt(gs, n, scOnly), from, n, |Listing(gs, scOnly)|)
    decreases |Listing(gs, scOnly)| + 1 - page
  {
    WalkStep(gs, page, size, scOnly, n, from);
    PageValue(gs, n, scOnly, from);
    var first := PageGroups(gs, scOnly, from, from + n);
    if from + n < |Listing(gs, scOnly)| {
      NextStart(page, n);
      WalkIsPages(gs, page + 1, size, scOnly, n, from + n);
      var rest := Walk(gs, page + 1, size, scOnly);
      PagesCons(PageAt(gs, n, scOnly), first, rest, from, n, |Listing(gs, scOnly)|);
    } else {
      PagesCons(PageAt(gs, n, scOnly), first, [], from, n, |Listing(gs, scOnly)|);
    }
  }

  /** The number of requests it takes. */
  lemma {:induction false} PagesLength(page: nat -> seq<PerTick>, from: nat, size: nat, total: nat)
    requires size > 0
    ensures from < total ==> |Pages(page, from, size, total)| == PageCount(total - from, size)
    ensures from >= total ==> |Pages(page, from, size, total)| == 1
    decreases total - from
  {
    if from + size < total {
      PagesLength(page, from + size, size, total);
    }
  }

  lemma PageAtIsSlice(gs: seq<PerTick>, size: nat, scOnly: bool)
    ensures forall p: nat :: Flatten(PageAt(gs, size, scOnly)(p)) == Window(Listing(gs, scOnly), p, p + size)
  {
    forall p: nat ensures Flatten(PageAt(gs, size, scOnly)(p)) == Window(Listing(gs, scOnly), p, p + size) {
      PageAtSlice(gs, size, scOnly, p);
    }
  }

  lemma PageAtSlice(gs: seq<PerTick>, size: nat, scOnly: bool, p: nat)
    ensures Flatten(PageAt(gs, size, scOnly)(p)) == Window(Listing(gs, scOnly), p, p + size)
  {
    PageValue(gs, size, scOnly, p);
    SliceValue(PageAt(gs, size, scOnly)(p), gs, scOnly, p, p + size);
  }

  lemma SliceValue(page: seq<PerTick>, gs: seq<PerTick>, scOnly: bool, from: int, to: int)
    requires from <= to && page == PageGroups(gs, scOnly, from, to)
    ensures Flatten(page) == Window(Listing(gs, scOnly), from, to)
  {
    PageIsSlice(gs, scOnly, from, to);
  }

  lemma AllPages(page: nat -> seq<PerTick>, size: nat, list: seq<Tx>)
    requires size > 0
    requires forall p: nat :: Flatten(page(p)) == Window(list, p, p + size)
    ensures FlattenPages(Pages(page, 0, size, |list|)) == list
    ensures var n := PageCount(|list|, size); |Pages(page, 0, size, |list|)| == if n > 1 then n else 1
  {
    PagesCollect(page, 0, size, list);
    PagesLength(page, 0, size, |list|);
    WholeWindow(list);
  }

  /** A client that starts at page one and follows the next-page numbers stops after
      max(1, ceil(total / size)) requests and receives every transaction exactly once, in order. */
  lemma WalkCollectsAll(gs: seq<PerTick>, size: uint32, scOnly: bool)
    requires Walkable(gs, size, scOnly)
    ensures FlattenPages(Walk(gs, 1, size, scOnly)) == Listing(gs, scOnly)
    ensures var n := PageCount(|Listing(gs, scOnly)|, PageSize(size));
            |Walk(gs, 1, size, scOnly)| == if n > 1 then n else 1
  {
    var n := PageSize(size);
    WalkIsPages(gs, 1, size, scOnly, n, 0);
    PageAtIsSlice(gs, n, scOnly);
    AllPages(PageAt(gs, n, scOnly), n, Listing(gs, scOnly));
  }
}
