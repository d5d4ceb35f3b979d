/** The per-identity index of transfers: how a tick's transactions are filed, and what an identity's
    list over a range of ticks contains after any run. */
module TransferIndex {
  import opened Bytes
  import opened Keys
  import opened Selection
  import opened Paging

  /** The transfers filed for an identity at a tick. */
  type Index = map<(Identity, uint32), seq<Tx>>

  // ---------- filing one tick ----------

  /** Transactions that move no amount are not transfers. */
  function NonZero(txs: seq<Tx>): (r: seq<Tx>)
  {
    if txs == [] then []
    else NonZero(txs[..|txs| - 1]) + if txs[|txs| - 1].amount != 0 then [txs[|txs| - 1]] else []
  }

  /** The transactions in which an identity takes part, in order; one that goes from the identity to
      itself is listed twice. */
  function Involving(txs: seq<Tx>, id: Identity): (r: seq<Tx>)
  {
    if txs == [] then []
    else
      var tx := txs[|txs| - 1];
      Involving(txs[..|txs| - 1], id) + (if tx.dest == id then [tx] else []) + (if tx.source == id then [tx] else [])
  }

  method RemoveNonTransferTransactions(txs: seq<Tx>) returns (r: seq<Tx>)
    ensures r == NonZero(txs)
  {
    r := [];
    for i := 0 to |txs|
      invariant r == NonZero(txs[..i])
    {
      assert txs[..i + 1][..i] == txs[..i];
      if txs[i].amount != 0 {
        r := r + [txs[i]];
      }
    }
    assert txs[..|txs|] == txs;
  }

  /** Exactly the transactions that move an amount, in their order. */
  lemma {:induction false} NonZeroSelects(txs: seq<Tx>, keep: Tx -> bool)
    requires forall tx :: keep(tx) <==> tx.amount != 0
    ensures Selects(txs, NonZero(txs), keep)
  {
    if txs == [] {
      SelectsNone(keep);
    } else {
      NonZeroSelects(txs[..|txs| - 1], keep);
      SelectsLast(txs, NonZero(txs[..|txs| - 1]), NonZero(txs), keep);
    }
  }

  lemma InvolvingSnoc(txs: seq<Tx>, tx: Tx, id: Identity)
    ensures Involving(txs + [tx], id)
            == Involving(txs, id) + (if tx.dest == id then [tx] else []) + (if tx.source == id then [tx] else [])
  {
    assert (txs + [tx])[..|txs|] == txs;
  }

  /** An identity has an entry exactly if it takes part in a transaction, and the entry lists them. */
  ghost predicate Files(m: map<Identity, seq<Tx>>, txs: seq<Tx>)
  {
    forall id :: if id in m then m[id] == Involving(txs, id) != [] else Involving(txs, id) == []
  }

  method CreateTransferTransactionsIdentityMap(txs: seq<Tx>) returns (m: map<Identity, seq<Tx>>)
    ensures Files(m, txs)
  {
    m := map[];
    for i := 0 to |txs|
      invariant Files(m, txs[..i])
    {
      var tx := txs[i];
      ghost var before := m;
      if tx.dest !in m {
        m := m[tx.dest := []];
      }
      if tx.source !in m {
        m := m[tx.source := []];
      }
      m := m[tx.dest := m[tx.dest] + [tx]];
      m := m[tx.source := m[tx.source] + [tx]];
      assert txs[..i + 1] == txs[..i] + [tx];
      forall id ensures if id in m then m[id] == Involving(txs[..i + 1], id) != []
        else Involving(txs[..i + 1], id) == [] {
        InvolvingSnoc(txs[..i], tx, id);
      }
    }
    assert txs[..|txs|] == txs;
  }

  /** The index after a tick's transactions have been filed. */
  ghost predicate Filed(index: Index, tick: uint32, txs: seq<Tx>, index': Index)
  {
    forall id: Identity, t: uint32 ::
      if t == tick && Involving(NonZero(txs), id) != []
      then (id, t) in index' && index'[(id, t)] == Involving(NonZero(txs), id)
      else ((id, t) in index' <==> (id, t) in index) && ((id, t) in index ==> index'[(id, t)] == index[(id, t)])
  }

  /** Identities are filed in the arbitrary order of a hash map. */
  method StoreTransferTransactions(index: Index, tick: uint32, txs: seq<Tx>) returns (index': Index)
    ensures Filed(index, tick, txs, index')
  {
    var transfers := RemoveNonTransferTransactions(txs);
    var perIdentity := CreateTransferTransactionsIdentityMap(transfers);
    index' := index;
    var rest := perIdentity.Keys;
    while rest != {}
      invariant rest <= perIdentity.Keys
      invariant forall id: Identity, t: uint32 ::
        if t == tick && id in perIdentity && id !in rest
        then (id, t) in index' && index'[(id, t)] == perIdentity[id]
        else ((id, t) in index' <==> (id, t) in index) && ((id, t) in index ==> index'[(id, t)] == index[(id, t)])
      decreases |rest|
    {
      var id :| id in rest;
      rest := rest - {id};
      index' := index'[(id, tick) := perIdentity[id]];
    }
  }

  // ---------- runs ----------

  /** A tick's valid transactions. */
  datatype Batch = Batch(tick: uint32, txs: seq<Tx>)

  ghost predicate TicksIncrease(run: seq<Batch>)
  {
    forall i, j :: 0 <= i < j < |run| ==> run[i].tick < run[j].tick
  }

  /** The successive indexes of a run that starts from an empty one. */
  ghost predicate Runs(run: seq<Batch>, indexes: seq<Index>)
  {
    && |indexes| == |run| + 1 && indexes[0] == map[]
    && forall i :: 0 <= i < |run| ==> Filed(indexes[i], run[i].tick, run[i].txs, indexes[i + 1])
  }

  /** What the run's transactions say about an identity at a tick. */
  function Expected(run: seq<Batch>, id: Identity, t: int): (r: seq<Tx>)
  {
    if run == [] then []
    else if run[|run| - 1].tick == t then Involving(NonZero(run[|run| - 1].txs), id)
    else Expected(run[..|run| - 1], id, t)
  }

  lemma {:induction false} NotYet(run: seq<Batch>, id: Identity, t: int)
    requires forall i :: 0 <= i < |run| ==> run[i].tick != t
    ensures Expected(run, id, t) == []
  {
    if run != [] {
      NotYet(run[..|run| - 1], id, t);
    }
  }

  /** After any run of increasing ticks the index holds, for every identity and tick, exactly the
      non-zero transfers of that tick in which the identity takes part. */
  lemma {:induction false} IndexIsExpected(run: seq<Batch>, indexes: seq<Index>, id: Identity, t: uint32)
    requires TicksIncrease(run) && Runs(run, indexes)
    ensures var index := indexes[|run|];
            if (id, t) in index then index[(id, t)] == Expected(run, id, t) != [] else Expected(run, id, t) == []
  {
    if run != [] {
      var n := |run| - 1;
      var init := run[..n];
      assert Runs(init, indexes[..n + 1]);
      IndexIsExpected(init, indexes[..n + 1], id, t);
      assert Filed(indexes[n], run[n].tick, run[n].txs, indexes[n + 1]);
      if run[n].tick == t {
        NotYet(init, id, t);
      }
    }
  }

  // ---------- what is filed, transaction by transaction ----------

  /** How often a transaction occurs in a list. */
  function Times(s: seq<Tx>, tx: Tx): (n: nat)
  {
    if s == [] then 0 else Times(s[..|s| - 1], tx) + if s[|s| - 1] == tx then 1 else 0
  }

  lemma {:induction false} TimesIsMultiplicity(s: seq<Tx>, tx: Tx)
    ensures Times(s, tx) == multiset(s)[tx]
  {
    if s != [] {
      TimesIsMultiplicity(s[..|s| - 1], tx);
      assert s == s[..|s| - 1] + [s[|s| - 1]];
    }
  }

  lemma {:induction false} TimesConcat(a: seq<Tx>, b: seq<Tx>, tx: Tx)
    ensures Times(a + b, tx) == Times(a, tx) + Times(b, tx)
  {
    if b == [] {
      assert a + b == a;
    } else {
      TimesConcat(a, b[..|b| - 1], tx);
      assert (a + b)[..|a + b| - 1] == a + b[..|b| - 1];
    }
  }

  lemma TimesSnoc(s: seq<Tx>, x: Tx, tx: Tx)
    ensures Times(s + [x], tx) == Times(s, tx) + if x == tx then 1 else 0
    ensures Times([x], tx) == if x == tx then 1 else 0
  {
    assert (s + [x])[..|s|] == s && [x][..0] == [];
  }

  /** Once as the destination of a transaction and once as its source. */
  function Share(n: nat, tx: Tx, id: Identity): (r: nat)
  {
    (if tx.dest == id then n else 0) + (if tx.source == id then n else 0)
  }

  function PartsOf(tx: Tx, id: Identity): (r: seq<Tx>)
  {
    (if tx.dest == id then [tx] else []) + (if tx.source == id then [tx] else [])
  }

  lemma InvolvingLast(txs: seq<Tx>, id: Identity)
    requires txs != []
    ensures Involving(txs, id) == Involving(txs[..|txs| - 1], id) + PartsOf(txs[|txs| - 1], id)
  {}

  lemma PartsTimes(last: Tx, id: Identity, tx: Tx)
    ensures Times(PartsOf(last, id), tx) == Share(if last == tx then 1 else 0, tx, id)
  {
    TimesSnoc([], last, tx);
    TimesSnoc([last], last, tx);
    assert [last] + [last] == [last, last];
  }

  lemma {:induction false} InvolvingTimes(txs: seq<Tx>, id: Identity, tx: Tx)
    ensures Times(Involving(txs, id), tx) == Share(Times(txs, tx), tx, id)
  {
    if txs != [] {
      var init, last := txs[..|txs| - 1], txs[|txs| - 1];
      InvolvingTimes(init, id, tx);
      InvolvingLast(txs, id);
      TimesConcat(Involving(init, id), PartsOf(last, id), tx);
      PartsTimes(last, id, tx);
    }
  }

  lemma NonZeroStep(init: seq<Tx>, last: Tx, tx: Tx)
    ensures Times(NonZero(init + [last]), tx)
            == Times(NonZero(init), tx) + if last == tx && tx.amount != 0 then 1 else 0
    ensures Times(init + [last], tx) == Times(init, tx) + if last == tx then 1 else 0
  {
    NonZeroSnoc(init, last);
    TimesSnoc(NonZero(init), last, tx);
    TimesSnoc(init, last, tx);
  }

  lemma NonZeroSnoc(init: seq<Tx>, last: Tx)
    ensures NonZero(init + [last]) == if last.amount != 0 then NonZero(init) + [last] else NonZero(init)
  {
    assert (init + [last])[..|init|] == init;
  }

  lemma NonZeroLastTimes(init: seq<Tx>, last: Tx, txs: seq<Tx>, tx: Tx)
    requires txs == init + [last] && Times(NonZero(init), tx) == if tx.amount == 0 then 0 else Times(init, tx)
    ensures Times(NonZero(txs), tx) == if tx.amount == 0 then 0 else Times(txs, tx)
  {
    NonZeroStep(init, last, tx);
  }

  lemma {:induction false} NonZeroTimes(txs: seq<Tx>, tx: Tx)
    ensures Times(NonZero(txs), tx) == if tx.amount == 0 then 0 else Times(txs, tx)
  {
    if txs != [] {
      NonZeroTimes(txs[..|txs| - 1], tx);
      NonZeroLastTimes(txs[..|txs| - 1], txs[|txs| - 1], txs, tx);
    }
  }

  lemma FiledTimes(txs: seq<Tx>, id: Identity, tx: Tx)
    ensures Times(Involving(NonZero(txs), id), tx) == if tx.amount == 0 then 0 else Share(Times(txs, tx), tx, id)
  {
    InvolvingTimes(NonZero(txs), id, tx);
    NonZeroTimes(txs, tx);
  }

  /** The list follows the order of the transactions. */
  ghost predicate InOrderOf(list: seq<Tx>, txs: seq<Tx>, p: seq<nat>)
  {
    && |p| == |list|
    && (forall i :: 0 <= i < |p| ==> p[i] < |txs| && txs[p[i]] == list[i])
    && (forall i, j :: 0 <= i < j < |p| ==> p[i] <= p[j])
  }

  function Copies(n: nat, x: nat): (r: seq<nat>)
    ensures |r| == n && forall i :: 0 <= i < n ==> r[i] == x
  {
    seq(n, _ => x)
  }

  lemma InOrderMore(list: seq<Tx>, txs: seq<Tx>, p: seq<nat>, tx: Tx, id: Identity)
    requires InOrderOf(list, txs, p)
    ensures InOrderOf(list + PartsOf(tx, id), txs + [tx], p + Copies(|PartsOf(tx, id)|, |txs|))
  {}

  lemma InOrderStill(list: seq<Tx>, txs: seq<Tx>, p: seq<nat>, tx: Tx)
    requires InOrderOf(list, txs, p)
    ensures InOrderOf(list, txs + [tx], p)
  {}

  lemma {:induction false} FiledInOrder(txs: seq<Tx>, id: Identity) returns (p: seq<nat>)
    ensures InOrderOf(Involving(NonZero(txs), id), txs, p)
  {
    if txs == [] {
      p := [];
    } else {
      var init, tx := txs[..|txs| - 1], txs[|txs| - 1];
      var q := FiledInOrder(init, id);
      var list := Involving(NonZero(init), id);
      assert init + [tx] == txs;
      if tx.amount != 0 {
        InOrderMore(list, init, q, tx, id);
        NonZeroLast(txs, id);
        p := q + Copies(|PartsOf(tx, id)|, |init|);
      } else {
        InOrderStill(list, init, q, tx);
        assert NonZero(init) + [] == NonZero(init);
        p := q;
      }
    }
  }

  lemma NonZeroLast(txs: seq<Tx>, id: Identity)
    requires txs != [] && txs[|txs| - 1].amount != 0
    ensures Involving(NonZero(txs), id)
            == Involving(NonZero(txs[..|txs| - 1]), id) + PartsOf(txs[|txs| - 1], id)
  {
    InvolvingLast(NonZero(txs), id);
    assert NonZero(txs)[..|NonZero(txs)| - 1] == NonZero(txs[..|txs| - 1]);
  }

  /** What the index lists for an identity at a tick. */
  function ListedAt(index: Index, id: Identity, t: uint32): (r: seq<Tx>)
  {
    if (id, t) in index then index[(id, t)] else []
  }

  /** After any run of increasing ticks, the index lists a transaction of a tick for an identity once if it
      is its destination and once if it is its source, as often as it occurs in the tick, and not at all if
      it moves no amount; and it lists them in the order of the tick. */
  lemma IndexListsTransfers(run: seq<Batch>, indexes: seq<Index>, id: Identity, i: nat) returns (p: seq<nat>)
    requires TicksIncrease(run) && Runs(run, indexes) && i < |run|
    ensures forall tx: Tx ::
              multiset(ListedAt(indexes[|run|], id, run[i].tick))[tx]
              == if tx.amount == 0 then 0
                 else (if tx.dest == id then multiset(run[i].txs)[tx] else 0)
                      + (if tx.source == id then multiset(run[i].txs)[tx] else 0)
    ensures InOrderOf(ListedAt(indexes[|run|], id, run[i].tick), run[i].txs, p)
  {
    IndexIsExpected(run, indexes, id, run[i].tick);
    ExpectedAt(run, id, i);
    p := FiledInOrder(run[i].txs, id);
    forall tx: Tx
      ensures multiset(ListedAt(indexes[|run|], id, run[i].tick))[tx]
              == if tx.amount == 0 then 0
                 else (if tx.dest == id then multiset(run[i].txs)[tx] else 0)
                      + (if tx.source == id then multiset(run[i].txs)[tx] else 0)
    {
      FiledTimes(run[i].txs, id, tx);
      TimesIsMultiplicity(run[i].txs, tx);
      TimesIsMultiplicity(Involving(NonZero(run[i].txs), id), tx);
    }
  }

  /** At other ticks it lists nothing. */
  lemma IndexListsNothingElse(run: seq<Batch>, indexes: seq<Index>, id: Identity, t: uint32)
    requires TicksIncrease(run) && Runs(run, indexes) && forall i :: 0 <= i < |run| ==> run[i].tick != t
    ensures (id, t) !in indexes[|run|]
  {
    IndexIsExpected(run, indexes, id, t);
    NotYet(run, id, t);
  }

  // ---------- scanning the index ----------

  /** The keys that the index has in the database. */
  ghost function KeysOf(index: Index): (db: set<Key>)
  {
    set p | p in index :: IdentityTransfers(p.0, p.1)
  }

  /** The groups the iterator visits between two ticks, in key order: the upper bound is the 64-bit
      successor of the last tick. */
  ghost function Scanned(index: Index, id: Identity, startTick: uint64, endTick: uint64): (gs: seq<PerTick>)
  {
    GroupsAt(index, id, InOrder(TransferTicks(KeysOf(index), id, startTick, (endTick + 1) % 0x1_0000_0000_0000_0000)))
  }

  ghost function GroupsAt(index: Index, id: Identity, ts: seq<nat>): (gs: seq<PerTick>)
    ensures |gs| == |ts| && forall i :: 0 <= i < |ts| ==> gs[i] == GroupAt(index, id, ts[i])
  {
    seq(|ts|, i requires 0 <= i < |ts| => GroupAt(index, id, ts[i]))
  }

  ghost function GroupAt(index: Index, id: Identity, t: nat): (g: PerTick)
  {
    PerTick(if t <= MAX_UINT32 then t else 0, id,
            if t <= MAX_UINT32 && (id, t) in index then index[(id, t)] else [])
  }

  /** The visited keys are those of the identity's entries with a tick in the range, in tick order. */
  lemma ScannedKeys(index: Index, id: Identity, startTick: uint64, endTick: uint64)
    ensures var to := (endTick + 1) % 0x1_0000_0000_0000_0000;
            && Scan(KeysOf(index), TransferBound(id, startTick), TransferBound(id, to))
               == EncodeAll(InOrder(TransferTicks(KeysOf(index), id, startTick, to)), (t: nat) => TransferBound(id, t))
            && forall t :: t in TransferTicks(KeysOf(index), id, startTick, to) <==>
                 startTick <= t < to && t <= MAX_UINT32 && (id, t) in index
  {
    var to := (endTick + 1) % 0x1_0000_0000_0000_0000;
    TransferScanExact(KeysOf(index), id, startTick, to);
    forall t ensures t in TransferTicks(KeysOf(index), id, startTick, to) <==>
                       startTick <= t < to && t <= MAX_UINT32 && (id, t) in index
    {
      if 0 <= t <= MAX_UINT32 {
        InKeys(index, id, t);
      }
    }
  }

  lemma InKeys(index: Index, id: Identity, t: uint32)
    ensures IdentityTransfers(id, t) in KeysOf(index) <==> (id, t) in index
  {
    if (id, t) in index {
      var p := (id, t);
      assert p in index && IdentityTransfers(p.0, p.1) == IdentityTransfers(id, t);
    }
  }

  /** The batches of a run that give an identity something to list in a range of ticks. */
  function GroupsOf(run: seq<Batch>, id: Identity, startTick: nat, endTick: nat): (gs: seq<PerTick>)
  {
    if run == [] then []
    else
      var b := run[|run| - 1];
      var txs := Involving(NonZero(b.txs), id);
      GroupsOf(run[..|run| - 1], id, startTick, endTick)
      + if startTick <= b.tick <= endTick && txs != [] then [PerTick(b.tick, id, txs)] else []
  }

  function TicksOfGroups(gs: seq<PerTick>): (r: seq<nat>)
    ensures |r| == |gs| && forall i :: 0 <= i < |gs| ==> r[i] == gs[i].tick
  {
    seq(|gs|, i requires 0 <= i < |gs| => gs[i].tick)
  }

  lemma {:induction false} GroupsAscend(run: seq<Batch>, id: Identity, startTick: nat, endTick: nat)
    requires TicksIncrease(run)
    ensures Ordered(GroupsOf(run, id, startTick, endTick), false)
    ensures forall g :: g in GroupsOf(run, id, startTick, endTick) ==>
              && startTick <= g.tick <= endTick && g.identity == id
              && g.transactions == Expected(run, id, g.tick) != []
              && exists i :: 0 <= i < |run| && run[i].tick == g.tick
  {
    if run != [] {
      var n := |run| - 1;
      var init := run[..n];
      GroupsAscend(init, id, startTick, endTick);
      var before, gs := GroupsOf(init, id, startTick, endTick), GroupsOf(run, id, startTick, endTick);
      forall g | g in before
        ensures g.tick < run[n].tick && Expected(run, id, g.tick) == Expected(init, id, g.tick)
        ensures exists i :: 0 <= i < |run| && run[i].tick == g.tick
      {
        var i :| 0 <= i < |init| && init[i].tick == g.tick;
        assert run[i] == init[i];
      }
      forall i, j | 0 <= i < j < |gs| ensures gs[i].tick < gs[j].tick {
        assert gs[i] == before[i] && before[i] in before;
        if j < |before| {
          assert gs[j] == before[j];
        }
      }
    }
  }

  lemma {:induction false} GroupsCover(run: seq<Batch>, id: Identity, startTick: nat, endTick: nat, t: int)
    requires TicksIncrease(run)
    requires startTick <= t <= endTick && Expected(run, id, t) != []
    ensures t in TicksOfGroups(GroupsOf(run, id, startTick, endTick))
  {
    var n := |run| - 1;
    var init := run[..n];
    var before, gs := GroupsOf(init, id, startTick, endTick), GroupsOf(run, id, startTick, endTick);
    if run[n].tick == t {
      assert TicksOfGroups(gs)[|before|] == t;
    } else {
      GroupsCover(init, id, startTick, endTick, t);
      var i :| 0 <= i < |before| && TicksOfGroups(before)[i] == t;
      assert gs[i] == before[i];
      assert TicksOfGroups(gs)[i] == t;
    }
  }

  /** Index agreement: after any run of increasing ticks, an identity's scanned groups over a range are,
      tick by tick, the non-zero transfers in which it takes part. */
  lemma IndexAgreement(run: seq<Batch>, indexes: seq<Index>, id: Identity, startTick: uint64, endTick: uint64)
    requires TicksIncrease(run) && Runs(run, indexes) && endTick < 0xFFFF_FFFF_FFFF_FFFF
    ensures Scanned(indexes[|run|], id, startTick, endTick) == GroupsOf(run, id, startTick, endTick)
  {
    var index := indexes[|run|];
    var gs := GroupsOf(run, id, startTick, endTick);
    SameTicks(run, indexes, id, startTick, endTick);
    forall i | 0 <= i < |gs| ensures GroupAt(index, id, gs[i].tick) == gs[i] {
      GroupFound(run, indexes, id, startTick, endTick, i);
    }
    ScannedFromTicks(index, id, startTick, endTick, gs);
  }

  lemma GroupFound(run: seq<Batch>, indexes: seq<Index>, id: Identity, startTick: uint64, endTick: uint64, i: nat)
    requires TicksIncrease(run) && Runs(run, indexes) && i < |GroupsOf(run, id, startTick, endTick)|
    ensures var g := GroupsOf(run, id, startTick, endTick)[i]; GroupAt(indexes[|run|], id, g.tick) == g
  {
    GroupsAscend(run, id, startTick, endTick);
    var g := GroupsOf(run, id, startTick, endTick)[i];
    assert g in GroupsOf(run, id, startTick, endTick);
    IndexIsExpected(run, indexes, id, g.tick);
  }

  lemma ScannedFromTicks(index: Index, id: Identity, startTick: uint64, endTick: uint64, gs: seq<PerTick>)
    requires endTick < 0xFFFF_FFFF_FFFF_FFFF
    requires InOrder(TransferTicks(KeysOf(index), id, startTick, endTick + 1)) == TicksOfGroups(gs)
    requires forall i :: 0 <= i < |gs| ==> GroupAt(index, id, gs[i].tick) == gs[i]
    ensures Scanned(index, id, startTick, endTick) == gs
  {
    assert (endTick + 1) % 0x1_0000_0000_0000_0000 == endTick + 1;
    GroupsAtTicks(index, id, gs);
  }

  lemma GroupsAtTicks(index: Index, id: Identity, gs: seq<PerTick>)
    requires forall i :: 0 <= i < |gs| ==> GroupAt(index, id, gs[i].tick) == gs[i]
    ensures GroupsAt(index, id, TicksOfGroups(gs)) == gs
  {
    forall i | 0 <= i < |gs| ensures GroupsAt(index, id, TicksOfGroups(gs))[i] == gs[i] {
      assert TicksOfGroups(gs)[i] == gs[i].tick;
    }
  }

  lemma SameTicks(run: seq<Batch>, indexes: seq<Index>, id: Identity, startTick: uint64, endTick: uint64)
    requires TicksIncrease(run) && Runs(run, indexes) && endTick < 0xFFFF_FFFF_FFFF_FFFF
    ensures InOrder(TransferTicks(KeysOf(indexes[|run|]), id, startTick, endTick + 1))
            == TicksOfGroups(GroupsOf(run, id, startTick, endTick))
  {
    var index := indexes[|run|];
    var gs := GroupsOf(run, id, startTick, endTick);
    var want, ts := TransferTicks(KeysOf(index), id, startTick, endTick + 1), TicksOfGroups(gs);
    ScannedKeys(index, id, startTick, endTick);
    GroupsAscend(run, id, startTick, endTick);
    forall t ensures t in want <==> t in ts {
      if t in want {
        IndexIsExpected(run, indexes, id, t);
        GroupsCover(run, id, startTick, endTick, t);
      }
      if t in ts {
        var i :| 0 <= i < |gs| && ts[i] == t;
        assert gs[i] in gs;
        IndexIsExpected(run, indexes, id, t);
      }
    }
    IncreasingUnique(InOrder(want), ts);
  }

  // ---------- end to end ----------

  /** A client that walks the pages of an identity's transfers over a range, in either direction,
      receives exactly the non-zero transfers of the recorded ticks in that range in which the identity
      takes part, filtered, tick after tick. */
  lemma WalkSeesEveryTransfer(run: seq<Batch>, indexes: seq<Index>, id: Identity, startTick: uint64, endTick: uint64,
                              size: uint32, descending: bool, scOnly: bool)
    requires TicksIncrease(run) && Runs(run, indexes) && endTick < 0xFFFF_FFFF_FFFF_FFFF
    requires Walkable(Directed(Scanned(indexes[|run|], id, startTick, endTick), descending), size, scOnly)
    ensures FlattenPages(Walk(Directed(Scanned(indexes[|run|], id, startTick, endTick), descending), 1, size, scOnly))
            == Listing(Directed(GroupsOf(run, id, startTick, endTick), descending), scOnly)
  {
    IndexAgreement(run, indexes, id, startTick, endTick);
    WalkCollectsAll(Directed(Scanned(indexes[|run|], id, startTick, endTick), descending), size, scOnly);
  }

  /** How often a transaction occurs in the batches of a range of ticks. */
  function Occurs(run: seq<Batch>, startTick: nat, endTick: nat, tx: Tx): (n: nat)
  {
    if run == [] then 0
    else
      var b := run[|run| - 1];
      Occurs(run[..|run| - 1], startTick, endTick, tx)
      + if startTick <= b.tick <= endTick then multiset(b.txs)[tx] else 0
  }

  lemma {:induction false} FilterTimes(scOnly: bool, txs: seq<Tx>, tx: Tx)
    ensures Times(Filter(scOnly, txs), tx) == if !scOnly || tx.inputType != 0 then Times(txs, tx) else 0
  {
    if scOnly && txs != [] {
      var init, last := txs[..|txs| - 1], txs[|txs| - 1];
      FilterTimes(scOnly, init, tx);
      TimesSnoc(Filter(true, init), last, tx);
      assert Filter(true, init) + [] == Filter(true, init);
    }
  }

  lemma ListingSnoc(gs: seq<PerTick>, g: PerTick, scOnly: bool)
    ensures Listing(gs + [g], scOnly) == Listing(gs, scOnly) + Filter(scOnly, g.transactions)
  {
    assert (gs + [g])[..|gs|] == gs;
  }

  /** How often one batch makes a transaction appear. */
  lemma BatchTimes(b: Batch, id: Identity, scOnly: bool, tx: Tx)
    ensures Times(Filter(scOnly, Involving(NonZero(b.txs), id)), tx)
            == if tx.amount == 0 || (scOnly && tx.inputType == 0) then 0 else Share(multiset(b.txs)[tx], tx, id)
  {
    FiledTimes(b.txs, id, tx);
    FilterTimes(scOnly, Involving(NonZero(b.txs), id), tx);
    TimesIsMultiplicity(b.txs, tx);
  }

  lemma GroupsSnoc(run: seq<Batch>, id: Identity, startTick: nat, endTick: nat, scOnly: bool)
    requires run != []
    ensures var b := run[|run| - 1];
            Listing(GroupsOf(run, id, startTick, endTick), scOnly)
            == Listing(GroupsOf(run[..|run| - 1], id, startTick, endTick), scOnly)
               + if startTick <= b.tick <= endTick then Filter(scOnly, Involving(NonZero(b.txs), id)) else []
  {
    var b := run[|run| - 1];
    var gs, txs := GroupsOf(run[..|run| - 1], id, startTick, endTick), Involving(NonZero(b.txs), id);
    ListingSnoc(gs, PerTick(b.tick, id, txs), scOnly);
    assert gs + [] == gs;
  }

  lemma {:induction false} ListingTimes(run: seq<Batch>, id: Identity, startTick: nat, endTick: nat, scOnly: bool,
                                        tx: Tx)
    ensures Times(Listing(GroupsOf(run, id, startTick, endTick), scOnly), tx)
            == if tx.amount == 0 || (scOnly && tx.inputType == 0) then 0
               else Share(Occurs(run, startTick, endTick, tx), tx, id)
  {
    if run != [] {
      var init, b := run[..|run| - 1], run[|run| - 1];
      ListingTimes(init, id, startTick, endTick, scOnly, tx);
      GroupsTimes(run, id, startTick, endTick, scOnly, tx);
    }
  }

  /** What one more batch adds. */
  lemma GroupsTimes(run: seq<Batch>, id: Identity, startTick: nat, endTick: nat, scOnly: bool, tx: Tx)
    requires run != []
    ensures var init, b := run[..|run| - 1], run[|run| - 1];
            Times(Listing(GroupsOf(run, id, startTick, endTick), scOnly), tx)
            == Times(Listing(GroupsOf(init, id, startTick, endTick), scOnly), tx)
               + if tx.amount == 0 || (scOnly && tx.inputType == 0) then 0
                 else Share(if startTick <= b.tick <= endTick then multiset(b.txs)[tx] else 0, tx, id)
  {
    var init, b := run[..|run| - 1], run[|run| - 1];
    var before := Listing(GroupsOf(init, id, startTick, endTick), scOnly);
    GroupsSnoc(run, id, startTick, endTick, scOnly);
    BatchTimes(b, id, scOnly, tx);
    TimesConcat(before, Filter(scOnly, Involving(NonZero(b.txs), id)), tx);
    assert before + [] == before;
  }

  lemma {:induction false} ReversedTimes(gs: seq<PerTick>, scOnly: bool, tx: Tx)
    ensures Times(Listing(Reverse(gs), scOnly), tx) == Times(Listing(gs, scOnly), tx)
  {
    if gs != [] {
      var g, rest := gs[0], gs[1..];
      ReversedTimes(rest, scOnly, tx);
      ListingSnoc(Reverse(rest), g, scOnly);
      TimesConcat(Listing(Reverse(rest), scOnly), Filter(scOnly, g.transactions), tx);
      assert gs == [g] + rest;
      PrependTimes(g, rest, scOnly, tx);
    }
  }

  lemma {:induction false} PrependTimes(g: PerTick, gs: seq<PerTick>, scOnly: bool, tx: Tx)
    ensures Times(Listing([g] + gs, scOnly), tx)
            == Times(Filter(scOnly, g.transactions), tx) + Times(Listing(gs, scOnly), tx)
  {
    if gs == [] {
      ListingSnoc([], g, scOnly);
      assert [g] + gs == [] + [g] && [] + Filter(scOnly, g.transactions) == Filter(scOnly, g.transactions);
    } else {
      var init, last := gs[..|gs| - 1], gs[|gs| - 1];
      PrependTimes(g, init, scOnly, tx);
      ListingSnoc([g] + init, last, scOnly);
      assert [g] + gs == ([g] + init) + [last];
      TimesConcat(Listing([g] + init, scOnly), Filter(scOnly, last.transactions), tx);
      TimesConcat(Listing(init, scOnly), Filter(scOnly, last.transactions), tx);
    }
  }

  /** From validator to client, transaction by transaction: walking the pages in either direction yields a
      transaction once for the identity as its destination and once as its source, as often as it occurs in
      the ticks of the range, and not at all if it moves no amount or is filtered out. */
  lemma WalkYieldsEachTransfer(run: seq<Batch>, indexes: seq<Index>, id: Identity, startTick: uint64, endTick: uint64,
                               size: uint32, descending: bool, scOnly: bool, tx: Tx)
    requires TicksIncrease(run) && Runs(run, indexes) && endTick < 0xFFFF_FFFF_FFFF_FFFF
    requires Walkable(Directed(Scanned(indexes[|run|], id, startTick, endTick), descending), size, scOnly)
    ensures multiset(FlattenPages(Walk(Directed(Scanned(indexes[|run|], id, startTick, endTick), descending), 1, size,
                                       scOnly)))[tx]
            == if tx.amount == 0 || (scOnly && tx.inputType == 0) then 0
               else (if tx.dest == id then Occurs(run, startTick, endTick, tx) else 0)
                    + (if tx.source == id then Occurs(run, startTick, endTick, tx) else 0)
  {
    var gs := GroupsOf(run, id, startTick, endTick);
    WalkSeesEveryTransfer(run, indexes, id, startTick, endTick, size, descending, scOnly);
    ReversedTimes(gs, scOnly, tx);
    ListingTimes(run, id, startTick, endTick, scOnly, tx);
    TimesIsMultiplicity(Listing(Directed(gs, descending), scOnly), tx);
  }

  // ---------- conservation ----------

  ghost predicate Distinct<T>(s: seq<T>)
  {
    forall i, j :: 0 <= i < j < |s| ==> s[i] != s[j]
  }

  /** The entries that a tick's transactions give to a list of identities. */
  function EntryCount(ids: seq<Identity>, txs: seq<Tx>): (n: nat)
  {
    if ids == [] then 0 else EntryCount(ids[..|ids| - 1], txs) + |Involving(txs, ids[|ids| - 1])|
  }

  function Occurrences(ids: seq<Identity>, id: Identity): (n: nat)
  {
    if ids == [] then 0 else Occurrences(ids[..|ids| - 1], id) + if ids[|ids| - 1] == id then 1 else 0
  }

  lemma {:induction false} EntryCountSnoc(ids: seq<Identity>, txs: seq<Tx>, tx: Tx)
    ensures EntryCount(ids, txs + [tx])
            == EntryCount(ids, txs) + Occurrences(ids, tx.dest) + Occurrences(ids, tx.source)
  {
    if ids != [] {
      EntryCountSnoc(ids[..|ids| - 1], txs, tx);
      InvolvingSnoc(txs, tx, ids[|ids| - 1]);
    }
  }

  lemma {:induction false} OccursOnce(ids: seq<Identity>, id: Identity)
    requires Distinct(ids)
    ensures Occurrences(ids, id) == if id in ids then 1 else 0
  {
    if ids != [] {
      var init, last := ids[..|ids| - 1], ids[|ids| - 1];
      OccursOnce(init, id);
      assert ids == init + [last];
      assert forall i :: 0 <= i < |init| ==> init[i] == ids[i] != last;
    }
  }

  lemma {:induction false} NoEntries(ids: seq<Identity>)
    ensures EntryCount(ids, []) == 0
  {
    if ids != [] {
      NoEntries(ids[..|ids| - 1]);
    }
  }

  /** Conservation: summed over all identities, a tick's transfers make exactly two entries each. */
  lemma {:induction false} TwoEntriesEach(ids: seq<Identity>, txs: seq<Tx>)
    requires Distinct(ids)
    requires forall i :: 0 <= i < |txs| ==> txs[i].dest in ids && txs[i].source in ids
    ensures EntryCount(ids, txs) == 2 * |txs|
  {
    if txs == [] {
      NoEntries(ids);
    } else {
      var init, tx := txs[..|txs| - 1], txs[|txs| - 1];
      TwoEntriesEach(ids, init);
      assert txs == init + [tx];
      EntryCountSnoc(ids, init, tx);
      OccursOnce(ids, tx.dest);
      OccursOnce(ids, tx.source);
    }
  }

  lemma {:induction false} ExpectedAt(run: seq<Batch>, id: Identity, i: nat)
    requires TicksIncrease(run) && i < |run|
    ensures Expected(run, id, run[i].tick) == Involving(NonZero(run[i].txs), id)
  {
    var n := |run| - 1;
    if i < n {
      ExpectedAt(run[..n], id, i);
      assert run[..n][i] == run[i];
    }
  }

  /** The number of transfers the index lists at a tick, over a list of identities. */
  function StoredCount(index: Index, ids: seq<Identity>, t: uint32): (n: nat)
  {
    if ids == [] then 0
    else
      var id := ids[|ids| - 1];
      StoredCount(index, ids[..|ids| - 1], t) + if (id, t) in index then |index[(id, t)]| else 0
  }

  lemma {:induction false} StoredCountIs(run: seq<Batch>, indexes: seq<Index>, ids: seq<Identity>, i: nat)
    requires TicksIncrease(run) && Runs(run, indexes) && i < |run|
    ensures StoredCount(indexes[|run|], ids, run[i].tick) == EntryCount(ids, NonZero(run[i].txs))
  {
    if ids != [] {
      StoredCountIs(run, indexes, ids[..|ids| - 1], i);
      IndexIsExpected(run, indexes, ids[|ids| - 1], run[i].tick);
      ExpectedAt(run, ids[|ids| - 1], i);
    }
  }

  /** The positions of the transactions that move an amount. */
  ghost function Moving(txs: seq<Tx>): (s: set<nat>)
  {
    set j | 0 <= j < |txs| && txs[j].amount != 0
  }

  lemma {:induction false} MovingCount(txs: seq<Tx>)
    ensures |NonZero(txs)| == |Moving(txs)|
    ensures forall tx :: tx in NonZero(txs) <==> exists j :: j in Moving(txs) && txs[j] == tx
  {
    if txs != [] {
      var init, tx := txs[..|txs| - 1], txs[|txs| - 1];
      MovingCount(init);
      assert Moving(txs) == Moving(init) + if tx.amount != 0 then {|init|} else {};
      forall x ensures x in NonZero(txs) <==> exists j :: j in Moving(txs) && txs[j] == x {
        if x in NonZero(init) {
          var j :| j in Moving(init) && init[j] == x;
          assert j in Moving(txs) && txs[j] == x;
        }
        if j :| j in Moving(txs) && txs[j] == x {
          assert j < |init| ==> j in Moving(init) && init[j] == x;
        }
      }
    }
  }

  /** After any run the index lists, summed over all identities, every transaction of a tick that moves an
      amount exactly twice. */
  lemma IndexConservation(run: seq<Batch>, indexes: seq<Index>, ids: seq<Identity>, i: nat)
    requires TicksIncrease(run) && Runs(run, indexes) && i < |run| && Distinct(ids)
    requires forall j :: 0 <= j < |run[i].txs| && run[i].txs[j].amount != 0 ==>
               run[i].txs[j].dest in ids && run[i].txs[j].source in ids
    ensures StoredCount(indexes[|run|], ids, run[i].tick)
            == 2 * |set j | 0 <= j < |run[i].txs| && run[i].txs[j].amount != 0|
  {
    var txs := run[i].txs;
    StoredCountIs(run, indexes, ids, i);
    MovingCount(txs);
    forall n | 0 <= n < |NonZero(txs)| ensures NonZero(txs)[n].dest in ids && NonZero(txs)[n].source in ids {
      assert NonZero(txs)[n] in NonZero(txs);
      var j :| j in Moving(txs) && txs[j] == NonZero(txs)[n];
    }
    TwoEntriesEach(ids, NonZero(txs));
    assert Moving(txs) == set j | 0 <= j < |txs| && txs[j].amount != 0;
  }
}
