/** The input of the store digest: the previous digest, the sorted transaction digests, the status. */
module StoreDigest {
  import opened Bytes

  ghost predicate Sorted(ds: seq<Digest>)
  {
    forall i, j :: 0 <= i < j < |ds| ==> AtMost(ds[i], ds[j])
  }

  lemma AtMostTransitive(a: bytes, b: bytes, c: bytes)
    requires AtMost(a, b) && AtMost(b, c)
    ensures AtMost(a, c)
  {
    if a != b && b != c {
      LessTransitive(a, b, c);
    }
  }

  /** The ascending arrangement of the digests. */
  function SortedForm(ds: seq<Digest>): (r: seq<Digest>)
    ensures Sorted(r) && multiset(r) == multiset(ds)
  {
    if ds == [] then []
    else
      assert ds == ds[..|ds| - 1] + [ds[|ds| - 1]];
      Inserted(SortedForm(ds[..|ds| - 1]), ds[|ds| - 1])
  }

  /** The list with a digest placed after the smaller and equal ones. */
  function Inserted(ds: seq<Digest>, d: Digest): (r: seq<Digest>)
    requires Sorted(ds)
    ensures Sorted(r) && multiset(r) == multiset(ds) + multiset{d}
  {
    if ds == [] then [d]
    else
      var init, last := ds[..|ds| - 1], ds[|ds| - 1];
      assert ds == init + [last];
      if Less(d, last) then InsertedBefore(init, d, last); Inserted(init, d) + [last]
      else InsertedLast(ds, d); ds + [d]
  }

  lemma InsertedBefore(init: seq<Digest>, d: Digest, last: Digest)
    requires Sorted(init + [last]) && Less(d, last)
    ensures forall r: seq<Digest> :: Sorted(r) && multiset(r) == multiset(init) + multiset{d} ==> Sorted(r + [last])
  {
    forall r: seq<Digest> | Sorted(r) && multiset(r) == multiset(init) + multiset{d} ensures Sorted(r + [last]) {
      forall i | 0 <= i < |r| ensures AtMost(r[i], last) {
        assert r[i] in multiset(r);
        if r[i] != d {
          assert r[i] in multiset(init);
          var j :| 0 <= j < |init| && init[j] == r[i];
          assert (init + [last])[j] == r[i] && (init + [last])[|init|] == last;
        }
      }
    }
  }

  lemma InsertedLast(ds: seq<Digest>, d: Digest)
    requires Sorted(ds) && ds != [] && !Less(d, ds[|ds| - 1])
    ensures Sorted(ds + [d])
  {
    LessTotal(ds[|ds| - 1], d);
    forall i | 0 <= i < |ds| ensures AtMost(ds[i], d) {
      if i < |ds| - 1 {
        AtMostTransitive(ds[i], ds[|ds| - 1], d);
      }
    }
  }

  /** A multiset of digests has one sorted arrangement. */
  lemma {:induction false} SortedUnique(a: seq<Digest>, b: seq<Digest>)
    requires Sorted(a) && Sorted(b) && multiset(a) == multiset(b)
    ensures a == b
  {
    if a == [] || b == [] {
      assert |multiset(a)| == |a| && |multiset(b)| == |b|;
    } else {
      HeadAndTail(a);
      HeadAndTail(b);
      assert a[0] in multiset(b) && b[0] in multiset(a);
      SameWhenBoth(a[0], b[0]);
      SortedUnique(a[1..], b[1..]);
    }
  }

  lemma HeadAndTail(a: seq<Digest>)
    requires a != [] && Sorted(a)
    ensures a == [a[0]] + a[1..] && Sorted(a[1..])
    ensures multiset(a[1..]) == multiset(a) - multiset{a[0]}
    ensures a[0] in multiset(a) && forall d :: d in multiset(a) ==> AtMost(a[0], d)
  {
    assert a == [a[0]] + a[1..];
  }

  lemma SameWhenBoth(a: bytes, b: bytes)
    requires AtMost(a, b) && AtMost(b, a)
    ensures a == b
  {
    if Less(a, b) {
      LessAsymmetric(a, b);
    }
  }

  function Concat(ds: seq<Digest>): (r: bytes)
    ensures |r| == 32 * |ds|
  {
    if ds == [] then [] else Concat(ds[..|ds| - 1]) + ds[|ds| - 1]
  }

  /** The serialized input of the store digest, from the digests of the valid transactions. */
  function StoreBytes(prev: Digest, ds: seq<Digest>, status: bytes): (b: bytes)
  {
    prev + Concat(SortedForm(ds)) + status
  }

  /** The digests of the transactions, in their order. */
  function DigestsOf(txs: seq<bytes>, digest: bytes -> Digest): (ds: seq<Digest>)
    ensures |ds| == |txs| && forall i :: 0 <= i < |txs| ==> ds[i] == digest(txs[i])
  {
    seq(|txs|, i requires 0 <= i < |txs| => digest(txs[i]))
  }

  method CollectDigests(txs: seq<bytes>, digest: bytes -> Digest) returns (ds: seq<Digest>)
    ensures ds == DigestsOf(txs, digest)
  {
    ds := [];
    for i := 0 to |txs|
      invariant |ds| == i && forall j :: 0 <= j < i ==> ds[j] == digest(txs[j])
    {
      ds := ds + [digest(txs[i])];
    }
  }

  method MarshalStore(prev: Digest, txs: seq<bytes>, digest: bytes -> Digest, status: bytes) returns (b: bytes)
    ensures b == StoreBytes(prev, DigestsOf(txs, digest), status)
  {
    var digests := CollectDigests(txs, digest);
    var sorted := SortedForm(digests);
    b := prev;
    for i := 0 to |sorted|
      invariant b == prev + Concat(sorted[..i])
    {
      assert sorted[..i + 1][..i] == sorted[..i];
      b := b + sorted[i];
    }
    assert sorted[..|sorted|] == sorted;
    b := b + status;
  }

  lemma {:induction false} ConcatAt(ds: seq<Digest>, i: nat)
    requires i < |ds|
    ensures Concat(ds)[32 * i..32 * i + 32] == ds[i]
  {
    var init := ds[..|ds| - 1];
    if i < |init| {
      ConcatAt(init, i);
      assert Concat(ds)[32 * i..32 * i + 32] == Concat(init)[32 * i..32 * i + 32];
    }
  }

  /** The serialized input, part by part: the previous digest, then the transaction digests, 32 bytes each and
      in ascending order, and the status last. */
  lemma StoreParts(prev: Digest, ds: seq<Digest>, status: bytes) returns (sorted: seq<Digest>)
    ensures multiset(sorted) == multiset(ds) && |sorted| == |ds|
    ensures forall i, j :: 0 <= i < j < |sorted| ==> sorted[i] == sorted[j] || Less(sorted[i], sorted[j])
    ensures var b, n := StoreBytes(prev, ds, status), |ds|;
            && |b| == 32 + 32 * n + |status|
            && b[..32] == prev && b[32 + 32 * n..] == status
            && forall i :: 0 <= i < n ==> b[32 + 32 * i..64 + 32 * i] == sorted[i]
  {
    sorted := SortedForm(ds);
    SameLength(sorted, ds);
    var b, n := StoreBytes(prev, ds, status), |ds|;
    forall i | 0 <= i < n ensures b[32 + 32 * i..64 + 32 * i] == sorted[i] {
      ConcatAt(sorted, i);
      assert b[32 + 32 * i..64 + 32 * i] == Concat(sorted)[32 * i..32 * i + 32];
    }
  }

  /** The serialized input is the same for any order of the transactions. */
  lemma OrderDoesNotMatter(prev: Digest, ds1: seq<Digest>, ds2: seq<Digest>, status: bytes)
    requires multiset(ds1) == multiset(ds2)
    ensures StoreBytes(prev, ds1, status) == StoreBytes(prev, ds2, status)
  {
    SortedUnique(SortedForm(ds1), SortedForm(ds2));
  }

  /** For a given number of transactions it determines the previous digest, the multiset of transaction
      digests and the status. */
  lemma StoreBytesCommit(prev1: Digest, ds1: seq<Digest>, status1: bytes, prev2: Digest, ds2: seq<Digest>,
                         status2: bytes)
    requires |ds1| == |ds2|
    ensures StoreBytes(prev1, ds1, status1) == StoreBytes(prev2, ds2, status2)
            <==> prev1 == prev2 && multiset(ds1) == multiset(ds2) && status1 == status2
  {
    var s1, s2 := SortedForm(ds1), SortedForm(ds2);
    SameLength(ds1, s1);
    SameLength(ds2, s2);
    if StoreBytes(prev1, ds1, status1) == StoreBytes(prev2, ds2, status2) {
      SplitStores(prev1, s1, status1, prev2, s2, status2);
    }
    if multiset(ds1) == multiset(ds2) {
      SortedUnique(s1, s2);
    }
  }

  lemma SameLength(a: seq<Digest>, b: seq<Digest>)
    requires multiset(a) == multiset(b)
    ensures |a| == |b|
  {
    assert |multiset(a)| == |a| && |multiset(b)| == |b|;
  }

  lemma SplitStores(prev1: Digest, s1: seq<Digest>, status1: bytes, prev2: Digest, s2: seq<Digest>, status2: bytes)
    requires |s1| == |s2| && prev1 + Concat(s1) + status1 == prev2 + Concat(s2) + status2
    ensures prev1 == prev2 && s1 == s2 && status1 == status2
  {
    var a, b := prev1 + Concat(s1) + status1, prev2 + Concat(s2) + status2;
    assert a[..32] == prev1 && b[..32] == prev2;
    assert a[32..32 + 32 * |s1|] == Concat(s1) && b[32..32 + 32 * |s2|] == Concat(s2);
    assert a[32 + 32 * |s1|..] == status1 && b[32 + 32 * |s2|..] == status2;
    ConcatInjective(s1, s2);
  }

  lemma {:induction false} ConcatInjective(a: seq<Digest>, b: seq<Digest>)
    requires |a| == |b| && Concat(a) == Concat(b)
    ensures a == b
  {
    if a != [] {
      var n := 32 * (|a| - 1);
      assert Concat(a)[..n] == Concat(a[..|a| - 1]) && Concat(b)[..n] == Concat(b[..|b| - 1]);
      assert Concat(a)[n..] == a[|a| - 1] && Concat(b)[n..] == b[|b| - 1];
      ConcatInjective(a[..|a| - 1], b[..|b| - 1]);
      assert a == a[..|a| - 1] + [a[|a| - 1]] && b == b[..|b| - 1] + [b[|b| - 1]];
    }
  }
}
