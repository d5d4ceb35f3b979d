/** The key builders of the store and the range scans that rely on their order.
    A database is seen here only through its set of keys. */
module Keys {
  import opened Bytes

  /** Identities are texts of one fixed length. */
  const IDENTITY_LENGTH: nat := 60

  type Identity = b: bytes | |b| == IDENTITY_LENGTH witness seq(IDENTITY_LENGTH, _ => 0)

  datatype Key =
    | TickData(tick: uint32)
    | QuorumData(tick: uint32)
    | ComputorList(epoch: uint32)
    | Transaction(txId: bytes)
    | LastProcessedTick
    | LastProcessedTickPerEpoch(epoch: uint32)
    | SkippedTicksInterval
    | IdentityTransfers(identity: Identity, tick: uint32)
    | ChainDigest(tick: uint32)
    | ProcessedTickIntervals(epoch: uint32)
    | TickTransactionsStatus(statusTick: uint64)
    | TransactionStatus(txId: bytes)
    | StoreDigest(tick: uint32)
    | EmptyTicksPerEpoch(epoch: uint32)
    | LastTickQuorumDataPerEpochInterval(epoch: uint32)
    | EmptyTickListPerEpoch(epoch: uint32)
    | TargetTickVoteSignature(epoch: uint32)

  /** The leading byte that separates the key families. */
  function Tag(k: Key): (t: byte)
  {
    match k
    case TickData(_) => 0x00
    case QuorumData(_) => 0x01
    case ComputorList(_) => 0x02
    case Transaction(_) => 0x03
    case LastProcessedTick => 0x04
    case LastProcessedTickPerEpoch(_) => 0x05
    case SkippedTicksInterval => 0x06
    case IdentityTransfers(_, _) => 0x07
    case ChainDigest(_) => 0x08
    case ProcessedTickIntervals(_) => 0x09
    case TickTransactionsStatus(_) => 0x10
    case TransactionStatus(_) => 0x11
    case StoreDigest(_) => 0x12
    case EmptyTicksPerEpoch(_) => 0x13
    case LastTickQuorumDataPerEpochInterval(_) => 0x14
    case EmptyTickListPerEpoch(_) => 0x15
    case TargetTickVoteSignature(_) => 0x16
  }

  /** What follows the leading byte. */
  function Body(k: Key): (b: bytes)
  {
    match k
    case TickData(t) => BigEndian(t, 8)
    case QuorumData(t) => BigEndian(t, 8)
    case ComputorList(e) => BigEndian(e, 4)
    case Transaction(id) => id
    case LastProcessedTick => []
    case LastProcessedTickPerEpoch(e) => BigEndian(e, 4)
    case SkippedTicksInterval => []
    case IdentityTransfers(id, t) => id + BigEndian(t, 8)
    case ChainDigest(t) => BigEndian(t, 8)
    case ProcessedTickIntervals(e) => BigEndian(e, 4)
    case TickTransactionsStatus(t) => BigEndian(t, 8)
    case TransactionStatus(id) => id
    case StoreDigest(t) => BigEndian(t, 8)
    case EmptyTicksPerEpoch(e) => BigEndian(e, 8)
    case LastTickQuorumDataPerEpochInterval(e) => BigEndian(e, 8)
    case EmptyTickListPerEpoch(e) => BigEndian(e, 8)
    case TargetTickVoteSignature(e) => BigEndian(e, 4)
  }

  function Encode(k: Key): (b: bytes)
  {
    [Tag(k)] + Body(k)
  }

  /** The number a key carries, if its family carries one. */
  function Number(k: Key): (n: nat)
  {
    match k
    case TickData(t) => t
    case QuorumData(t) => t
    case ComputorList(e) => e
    case Transaction(id) => 0
    case LastProcessedTick => 0
    case LastProcessedTickPerEpoch(e) => e
    case SkippedTicksInterval => 0
    case IdentityTransfers(id, t) => t
    case ChainDigest(t) => t
    case ProcessedTickIntervals(e) => e
    case TickTransactionsStatus(t) => t
    case TransactionStatus(id) => 0
    case StoreDigest(t) => t
    case EmptyTicksPerEpoch(e) => e
    case LastTickQuorumDataPerEpochInterval(e) => e
    case EmptyTickListPerEpoch(e) => e
    case TargetTickVoteSignature(e) => e
  }

  /** No two keys of the store share an encoding, within a family or across families. */
  lemma EncodeInjective(a: Key, b: Key)
    requires Encode(a) == Encode(b)
    ensures a == b
  {
    Pow256Values();
    assert Encode(a)[0] == Tag(a) && Encode(b)[0] == Tag(b);
    assert Encode(a)[1..] == Body(a) && Encode(b)[1..] == Body(b);
    if a.IdentityTransfers? {
      assert Body(a)[..IDENTITY_LENGTH] == a.identity && Body(b)[..IDENTITY_LENGTH] == b.identity;
      assert Body(a)[IDENTITY_LENGTH..] == BigEndian(a.tick, 8);
      assert Body(b)[IDENTITY_LENGTH..] == BigEndian(b.tick, 8);
    }
    BigEndianOrder(Number(a), Number(b), 8);
    if Number(a) < Pow256(4) && Number(b) < Pow256(4) {
      BigEndianOrder(Number(a), Number(b), 4);
    }
  }

  /** The leading byte, and a big-endian number of that many bytes after it. */
  predicate Carries(b: bytes, tag: byte, n: nat, width: nat)
  {
    |b| == 1 + width && b[0] == tag && FromBigEndian(b[1..]) == n
  }

  /** Every key decodes to what it was made from: its leading byte, and the tick, epoch, identity or text that
      follows. */
  lemma KeyDecodes(k: Key)
    ensures var b := Encode(k);
            match k
            case TickData(t) => Carries(b, 0x00, t, 8)
            case QuorumData(t) => Carries(b, 0x01, t, 8)
            case ComputorList(e) => Carries(b, 0x02, e, 4)
            case Transaction(id) => b == [0x03] + id
            case LastProcessedTick => b == [0x04]
            case LastProcessedTickPerEpoch(e) => Carries(b, 0x05, e, 4)
            case SkippedTicksInterval => b == [0x06]
            case IdentityTransfers(id, t) =>
              |b| == 69 && b[0] == 0x07 && b[1..61] == id && FromBigEndian(b[61..]) == t
            case ChainDigest(t) => Carries(b, 0x08, t, 8)
            case ProcessedTickIntervals(e) => Carries(b, 0x09, e, 4)
            case TickTransactionsStatus(t) => Carries(b, 0x10, t, 8)
            case TransactionStatus(id) => b == [0x11] + id
            case StoreDigest(t) => Carries(b, 0x12, t, 8)
            case EmptyTicksPerEpoch(e) => Carries(b, 0x13, e, 8)
            case LastTickQuorumDataPerEpochInterval(e) => Carries(b, 0x14, e, 8)
            case EmptyTickListPerEpoch(e) => Carries(b, 0x15, e, 8)
            case TargetTickVoteSignature(e) => Carries(b, 0x16, e, 4)
  {
    Pow256Values();
    assert Encode(k)[1..] == Body(k);
    BigEndianRoundTrip(Number(k), 8);
    if Number(k) < Pow256(4) {
      BigEndianRoundTrip(Number(k), 4);
    }
    if k.IdentityTransfers? {
      assert Encode(k)[1..61] == k.identity && Encode(k)[61..] == BigEndian(k.tick, 8);
    }
  }

  // ---------- iterators ----------

  ghost predicate StrictlyAscending(s: seq<bytes>)
  {
    forall i, j :: 0 <= i < j < |s| ==> Less(s[i], s[j])
  }

  ghost predicate IsLeast(k: bytes, s: set<bytes>)
  {
    k in s && forall x :: x in s ==> AtMost(k, x)
  }

  lemma {:induction false} LeastExists(s: set<bytes>)
    requires s != {}
    ensures exists k :: IsLeast(k, s)
  {
    var k :| k in s;
    var rest := s - {k};
    if rest == {} {
      assert s == {k};
      assert IsLeast(k, s);
    } else {
      LeastExists(rest);
      var m :| IsLeast(m, rest);
      var least := if Less(m, k) then m else k;
      LessTotal(k, m);
      forall x | x in s ensures AtMost(least, x) {
        if x != k {
          assert x in rest;
          if least == k && x != m { LessTransitive(k, m, x); }
        }
      }
      assert IsLeast(least, s);
    }
  }

  /** The order in which an iterator visits a set of keys. */
  ghost function Ascending(s: set<bytes>): (r: seq<bytes>)
    ensures StrictlyAscending(r)
    ensures forall k :: k in r <==> k in s
  {
    if s == {} then [] else
      LeastExists(s);
      var k :| IsLeast(k, s);
      var rest := s - {k};
      assert forall x :: x in rest ==> Less(k, x);
      [k] + Ascending(rest)
  }

  /** The keys an iterator with the given bounds visits, in order. */
  ghost function Scan(db: set<Key>, lower: bytes, upper: bytes): (r: seq<bytes>)
  {
    Ascending(set k | k in db && AtMost(lower, Encode(k)) && Less(Encode(k), upper) :: Encode(k))
  }

  ghost predicate Increasing(s: seq<nat>)
  {
    forall i, j :: 0 <= i < j < |s| ==> s[i] < s[j]
  }

  ghost predicate IsSmallest(k: nat, s: set<nat>)
  {
    k in s && forall x :: x in s ==> k <= x
  }

  lemma {:induction false} SmallestExists(s: set<nat>)
    requires s != {}
    ensures exists k :: IsSmallest(k, s)
  {
    var k :| k in s;
    var rest := s - {k};
    if rest == {} {
      assert s == {k};
      assert IsSmallest(k, s);
    } else {
      SmallestExists(rest);
      var m :| IsSmallest(m, rest);
      assert s == rest + {k};
      assert IsSmallest(if m < k then m else k, s);
    }
  }

  /** The elements of a set of numbers, smallest first. */
  ghost function InOrder(s: set<nat>): (r: seq<nat>)
    ensures Increasing(r)
    ensures forall k :: k in r <==> k in s
  {
    if s == {} then [] else
      SmallestExists(s);
      var k :| IsSmallest(k, s);
      var rest := s - {k};
      assert forall x :: x in rest ==> k < x;
      [k] + InOrder(rest)
  }

  /** An increasing sequence is determined by its elements. */
  lemma {:induction false} IncreasingUnique(a: seq<nat>, b: seq<nat>)
    requires Increasing(a) && Increasing(b)
    requires forall x :: x in a <==> x in b
    ensures a == b
  {
    if a != [] && b != [] {
      assert a[0] in b && b[0] in a;
      TailMembers(a);
      TailMembers(b);
      IncreasingUnique(a[1..], b[1..]);
      assert a == [a[0]] + a[1..] && b == [b[0]] + b[1..];
    } else {
      FirstIsMember(a);
      FirstIsMember(b);
    }
  }

  lemma TailMembers(a: seq<nat>)
    requires a != [] && Increasing(a)
    ensures forall x :: x in a[1..] <==> x in a && x != a[0]
  {
    assert a == [a[0]] + a[1..];
  }

  /** A strictly ascending sequence is determined by its elements. */
  lemma {:induction false} AscendingUnique(a: seq<bytes>, b: seq<bytes>)
    requires StrictlyAscending(a) && StrictlyAscending(b)
    requires forall k :: k in a <==> k in b
    ensures a == b
  {
    if a != [] && b != [] {
      assert a[0] in b && b[0] in a;
      SameFirst(a, b);
      assert a == [a[0]] + a[1..] && b == [b[0]] + b[1..];
      LessIrreflexive(a[0]);
      assert forall k :: k in a[1..] <==> k in a && k != a[0];
      assert forall k :: k in b[1..] <==> k in b && k != b[0];
      AscendingUnique(a[1..], b[1..]);
    } else {
      FirstIsMember(a);
      FirstIsMember(b);
    }
  }

  lemma FirstIsMember<T>(s: seq<T>)
    ensures s == [] || s[0] in s
  {}

  lemma SameFirst(a: seq<bytes>, b: seq<bytes>)
    requires a != [] && b != [] && StrictlyAscending(a) && StrictlyAscending(b)
    requires a[0] in b && b[0] in a
    ensures a[0] == b[0]
  {
    if a[0] != b[0] {
      LessAsymmetric(a[0], b[0]);
    }
  }

  ghost function EncodeAll(ns: seq<nat>, key: nat -> bytes): (r: seq<bytes>)
    ensures |r| == |ns| && forall i :: 0 <= i < |ns| ==> r[i] == key(ns[i])
  {
    seq(|ns|, i requires 0 <= i < |ns| => key(ns[i]))
  }

  /** Keys that encode numbers in an order-preserving way are visited in the order of the numbers. */
  lemma VisitedInOrder(ks: set<bytes>, ns: set<nat>, key: nat -> bytes)
    requires forall k :: k in ks ==> exists n :: n in ns && key(n) == k
    requires forall n :: n in ns ==> key(n) in ks
    requires forall m, n :: m in ns && n in ns && m < n ==> Less(key(m), key(n))
    ensures Ascending(ks) == EncodeAll(InOrder(ns), key)
  {
    var order := InOrder(ns);
    var r := EncodeAll(order, key);
    forall k ensures k in r <==> k in ks {
      if k in ks {
        var n :| n in ns && key(n) == k;
        var i :| 0 <= i < |order| && order[i] == n;
        assert r[i] == k;
      }
      if k in r {
        var i :| 0 <= i < |r| && r[i] == k;
        assert order[i] in order;
      }
    }
    forall i, j | 0 <= i < j < |r| ensures Less(r[i], r[j]) {
      assert order[i] in order && order[j] in order;
    }
    AscendingUnique(Ascending(ks), r);
  }

  // ---------- the scans over epochs ----------

  /** The decimal text of 2^64 - 1, which the epoch scans append to the table byte as upper bound. */
  const MAX_UINT64_TEXT: bytes :=
    [0x31, 0x38, 0x34, 0x34, 0x36, 0x37, 0x34, 0x34, 0x30, 0x37,
     0x33, 0x37, 0x30, 0x39, 0x35, 0x35, 0x31, 0x36, 0x31, 0x35]

  /** The largest epoch below that bound: its four bytes are the first four characters of the text. */
  const MAX_SCANNED_EPOCH: uint32 := 0x3138_3434

  const INTERVALS_TAG: byte := 0x09
  const LAST_TICK_TAG: byte := 0x05

  function EpochKey(tag: byte, epoch: nat): (k: bytes)
  {
    [tag] + BigEndian(epoch, 4)
  }

  /** The epoch a scanned key stands for. */
  function DecodeEpoch(k: bytes): (e: nat)
    requires k != []
  {
    FromBigEndian(k[1..])
  }

  lemma EpochKeyOrder(tag: byte, a: uint32, b: uint32)
    ensures Less(EpochKey(tag, a), EpochKey(tag, b)) <==> a < b
    ensures DecodeEpoch(EpochKey(tag, a)) == a
  {
    Pow256Values();
    LessSamePrefix([tag], BigEndian(a, 4), BigEndian(b, 4));
    BigEndianOrder(a, b, 4);
    BigEndianRoundTrip(a, 4);
    assert EpochKey(tag, a)[1..] == BigEndian(a, 4);
  }

  /** An epoch key is inside the textual bounds exactly when its epoch is at most 0x31383434. */
  lemma EpochKeyInBounds(tag: byte, e: uint32)
    ensures AtMost([tag], EpochKey(tag, e))
    ensures Less(EpochKey(tag, e), [tag] + MAX_UINT64_TEXT) <==> e <= MAX_SCANNED_EPOCH
  {
    Pow256Values();
    var k := BigEndian(e, 4);
    LessSamePrefix([tag], [], k);
    assert [tag] + [] == [tag];
    LessSamePrefix([tag], k, MAX_UINT64_TEXT);
    BigEndianOrder(e, MAX_SCANNED_EPOCH, 4);
    TextBound(k);
    BigEndianLiteral();
  }

  lemma BigEndianLiteral()
    ensures BigEndian(MAX_SCANNED_EPOCH, 4) == [0x31, 0x38, 0x34, 0x34]
  {
    assert BigEndian(0x31, 1) == [0x31];
    assert BigEndian(0x3138, 2) == [0x31, 0x38];
    assert BigEndian(0x313834, 3) == [0x31, 0x38, 0x34];
  }

  lemma TextBound(k: bytes)
    requires |k| == 4
    ensures Less(k, MAX_UINT64_TEXT) <==> k == [0x31, 0x38, 0x34, 0x34] || Less(k, [0x31, 0x38, 0x34, 0x34])
  {
    var p := [0x31, 0x38, 0x34, 0x34];
    var rest := MAX_UINT64_TEXT[4..];
    assert MAX_UINT64_TEXT == p + rest;
    EqualLengthPrefix(k, p, rest);
  }

  lemma {:induction false} EqualLengthPrefix(k: bytes, p: bytes, rest: bytes)
    requires |k| == |p| && rest != []
    ensures Less(k, p + rest) <==> k == p || Less(k, p)
  {
    if k != [] {
      EqualLengthPrefix(k[1..], p[1..], rest);
      assert (p + rest)[1..] == p[1..] + rest;
      assert k == [k[0]] + k[1..] && p == [p[0]] + p[1..];
    } else {
      assert p + rest == rest;
    }
  }

  /** The epochs of a table that its scan can see. */
  ghost function EpochsIn(db: set<Key>, tag: byte): (s: set<nat>)
    ensures forall e :: e in s <==> e <= MAX_SCANNED_EPOCH && exists k :: k in db && Tag(k) == tag && Number(k) == e
  {
    set k | k in db && Tag(k) == tag && Number(k) <= MAX_SCANNED_EPOCH :: Number(k)
  }

  lemma EpochTableKey(k: Key, tag: byte)
    requires tag == INTERVALS_TAG || tag == LAST_TICK_TAG
    ensures AtMost([tag], Encode(k)) && Less(Encode(k), [tag] + MAX_UINT64_TEXT)
            <==> Tag(k) == tag && Number(k) <= MAX_SCANNED_EPOCH
    ensures Tag(k) == tag ==> Encode(k) == EpochKey(tag, Number(k)) && Number(k) <= MAX_UINT32
  {
    if AtMost([tag], Encode(k)) && Less(Encode(k), [tag] + MAX_UINT64_TEXT) {
      assert [tag] + [] == [tag];
      BetweenSharesPrefix([tag], [], Encode(k), MAX_UINT64_TEXT);
      assert Encode(k)[0] == tag;
    }
    if Tag(k) == tag {
      EpochKeyInBounds(tag, Number(k));
    }
  }

  /** The scans of the interval table and of the last-tick table visit, whatever else the database
      holds, exactly the stored epochs up to 0x31383434, in ascending order. */
  lemma EpochScanExact(db: set<Key>, tag: byte)
    requires tag == INTERVALS_TAG || tag == LAST_TICK_TAG
    ensures Scan(db, [tag], [tag] + MAX_UINT64_TEXT)
            == EncodeAll(InOrder(EpochsIn(db, tag)), (e: nat) => EpochKey(tag, e))
  {
    var lo, hi := [tag], [tag] + MAX_UINT64_TEXT;
    var ns := EpochsIn(db, tag);
    var ks := set k | k in db && AtMost(lo, Encode(k)) && Less(Encode(k), hi) :: Encode(k);
    var key := (e: nat) => EpochKey(tag, e);
    forall k | k in db
      ensures AtMost(lo, Encode(k)) && Less(Encode(k), hi) ==> Number(k) in ns && key(Number(k)) == Encode(k)
      ensures Tag(k) == tag && Number(k) <= MAX_SCANNED_EPOCH ==> Encode(k) in ks && key(Number(k)) == Encode(k)
    {
      EpochTableKey(k, tag);
    }
    forall m, n | m in ns && n in ns && m < n ensures Less(key(m), key(n)) {
      EpochKeyOrder(tag, m, n);
    }
    VisitedInOrder(ks, ns, key);
  }

  // ---------- the scan of one identity's transfers ----------

  function TransferBound(id: Identity, tick: nat): (k: bytes)
  {
    [0x07] + id + BigEndian(tick, 8)
  }

  lemma TransferKeyOrder(id: Identity, a: uint64, b: uint64)
    ensures Less(TransferBound(id, a), TransferBound(id, b)) <==> a < b
    ensures TransferBound(id, a) == TransferBound(id, b) <==> a == b
  {
    Pow256Values();
    LessSamePrefix([0x07] + id, BigEndian(a, 8), BigEndian(b, 8));
    BigEndianOrder(a, b, 8);
    assert TransferBound(id, a)[1 + IDENTITY_LENGTH..] == BigEndian(a, 8);
    assert TransferBound(id, b)[1 + IDENTITY_LENGTH..] == BigEndian(b, 8);
  }

  lemma TransferBoundParts(id: Identity, tick: nat)
    ensures TransferBound(id, tick) == [0x07] + (id + BigEndian(tick, 8))
    ensures TransferBound(id, tick) == ([0x07] + id) + BigEndian(tick, 8)
  {}

  lemma BetweenTransferBounds(k: Key, id: Identity, from: uint64, to: uint64)
    requires AtMost(TransferBound(id, from), Encode(k)) && Less(Encode(k), TransferBound(id, to))
    ensures k.IdentityTransfers? && k.identity == id
  {
    TransferBoundParts(id, from);
    TransferBoundParts(id, to);
    var a, b := BigEndian(from, 8), BigEndian(to, 8);
    BetweenSharesPrefix([0x07], id + a, Encode(k), id + b);
    BetweenSharesPrefix([0x07] + id, a, Encode(k), b);
    TransferPrefix(k, id);
  }

  lemma TransferPrefix(k: Key, id: Identity)
    requires |Encode(k)| >= 1 + IDENTITY_LENGTH && Encode(k)[..1 + IDENTITY_LENGTH] == [0x07] + id
    ensures k.IdentityTransfers? && k.identity == id
  {
    assert Encode(k)[0] == ([0x07] + id)[0];
    assert Tag(k) == 0x07;
    assert Encode(k)[1..1 + IDENTITY_LENGTH] == ([0x07] + id)[1..];
  }

  /** A key lies between two transfer bounds of one identity exactly when it is a transfer key of
      that identity with its tick in the half-open range. */
  lemma TransferKeyInBounds(k: Key, id: Identity, from: uint64, to: uint64)
    ensures AtMost(TransferBound(id, from), Encode(k)) && Less(Encode(k), TransferBound(id, to))
            <==> k.IdentityTransfers? && k.identity == id && from <= k.tick < to
  {
    if k.IdentityTransfers? && k.identity == id {
      assert Encode(k) == TransferBound(id, k.tick);
      TransferKeyOrder(id, from, k.tick);
      TransferKeyOrder(id, k.tick, to);
    } else if AtMost(TransferBound(id, from), Encode(k)) && Less(Encode(k), TransferBound(id, to)) {
      BetweenTransferBounds(k, id, from, to);
      assert false;
    }
  }

  /** The ticks in [from, to) at which the database has an entry for the identity. */
  ghost function TransferTicks(db: set<Key>, id: Identity, from: nat, to: nat): (s: set<nat>)
    ensures forall t :: t in s <==> from <= t < to && t <= MAX_UINT32 && IdentityTransfers(id, t) in db
  {
    set k | k in db && k.IdentityTransfers? && k.identity == id && from <= k.tick < to :: k.tick
  }

  /** The encoded keys that lie between two bounds of one identity. */
  ghost function TransferKeys(db: set<Key>, id: Identity, from: nat, to: nat): (s: set<bytes>)
  {
    set k | k in db && AtMost(TransferBound(id, from), Encode(k)) && Less(Encode(k), TransferBound(id, to)) :: Encode(k)
  }

  lemma TransferKeyTick(db: set<Key>, id: Identity, from: uint64, to: uint64, b: bytes)
    requires b in TransferKeys(db, id, from, to)
    ensures exists n :: n in TransferTicks(db, id, from, to) && TransferBound(id, n) == b
  {
    var k :| k in db && AtMost(TransferBound(id, from), Encode(k)) && Less(Encode(k), TransferBound(id, to))
      && Encode(k) == b;
    TransferKeyInBounds(k, id, from, to);
    assert k == IdentityTransfers(id, k.tick);
    assert k.tick in TransferTicks(db, id, from, to) && TransferBound(id, k.tick) == b;
  }

  lemma TransferTickKey(db: set<Key>, id: Identity, from: uint64, to: uint64, n: nat)
    requires n in TransferTicks(db, id, from, to)
    ensures TransferBound(id, n) in TransferKeys(db, id, from, to)
  {
    var k := IdentityTransfers(id, n);
    TransferKeyInBounds(k, id, from, to);
    assert TransferBound(id, n) == Encode(k);
  }

  /** The scan between two bounds of one identity visits, whatever else the database holds, exactly
      that identity's entries with a tick in the range, in ascending tick order. */
  lemma TransferScanExact(db: set<Key>, id: Identity, from: uint64, to: uint64)
    ensures Scan(db, TransferBound(id, from), TransferBound(id, to))
            == EncodeAll(InOrder(TransferTicks(db, id, from, to)), (t: nat) => TransferBound(id, t))
  {
    var ks, ns := TransferKeys(db, id, from, to), TransferTicks(db, id, from, to);
    var key := (t: nat) => TransferBound(id, t);
    forall b | b in ks ensures exists n :: n in ns && key(n) == b {
      TransferKeyTick(db, id, from, to, b);
      var n :| n in ns && TransferBound(id, n) == b;
      assert key(n) == b;
    }
    forall n | n in ns ensures key(n) in ks {
      TransferTickKey(db, id, from, to, n);
    }
    forall m, n | m in ns && n in ns && m < n ensures Less(key(m), key(n)) {
      TransferKeyOrder(id, m, n);
    }
    VisitedInOrder(ks, ns, key);
  }
}
