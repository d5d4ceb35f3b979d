/** Validation of a tick's transactions against the digests in its tick data. */
module TxValidation {
  import opened Bytes
  import opened Wrappers

  /** A transaction as the validator sees it: the hash of its bytes, what its signature covers, and
      whether its digest converts to an identifier. */
  datatype SignedTx = SignedTx(digest: Digest, source: Digest, signedDigest: Digest, signature: bytes, hasId: bool)

  datatype Failure = NoId | UnknownDigest | BadSignature | DigestsLeft

  type Verifier = (Digest, Digest, bytes) -> bool

  /** The expected digests, as hexadecimal texts; all-zero slots are unused. */
  function Texts(slots: seq<Digest>): (m: set<string>)
  {
    if slots == [] then {}
    else
      var d := slots[|slots| - 1];
      Texts(slots[..|slots| - 1]) + if d == ZeroDigest() then {} else {HexEncode(d)}
  }

  method CreateTxDigestsMap(slots: seq<Digest>) returns (m: set<string>)
    ensures m == Texts(slots)
  {
    m := {};
    for i := 0 to |slots|
      invariant m == Texts(slots[..i])
    {
      assert slots[..i + 1][..i] == slots[..i];
      if slots[i] != ZeroDigest() {
        m := m + {HexEncode(slots[i])};
      }
    }
    assert slots[..|slots|] == slots;
  }

  lemma {:induction false} TextOfSlot(slots: seq<Digest>, s: string) returns (i: nat)
    requires s in Texts(slots)
    ensures i < |slots| && slots[i] != ZeroDigest() && HexEncode(slots[i]) == s
  {
    i := |slots| - 1;
    if slots[i] == ZeroDigest() || HexEncode(slots[i]) != s {
      i := TextOfSlot(slots[..i], s);
    }
  }

  lemma {:induction false} SlotHasText(slots: seq<Digest>, i: nat)
    requires i < |slots| && slots[i] != ZeroDigest()
    ensures HexEncode(slots[i]) in Texts(slots)
  {
    if i < |slots| - 1 {
      SlotHasText(slots[..|slots| - 1], i);
    }
  }

  ghost predicate SignaturesOk(verify: Verifier, txs: seq<SignedTx>)
  {
    forall i :: 0 <= i < |txs| ==> verify(txs[i].source, txs[i].signedDigest, txs[i].signature)
  }

  ghost predicate HaveIds(txs: seq<SignedTx>)
  {
    forall i :: 0 <= i < |txs| ==> txs[i].hasId
  }

  ghost predicate DistinctDigests(txs: seq<SignedTx>)
  {
    forall i, j :: 0 <= i < j < |txs| ==> txs[i].digest != txs[j].digest
  }

  /** The hexadecimal digests of the transactions. */
  function Digests(txs: seq<SignedTx>): (r: set<string>)
    ensures forall s :: s in r <==> exists i :: 0 <= i < |txs| && HexEncode(txs[i].digest) == s
  {
    set i | 0 <= i < |txs| :: HexEncode(txs[i].digest)
  }

  /** A transaction's digest is removed once matched, so that a second one with the same digest is
      unknown; validation succeeds exactly if the digests are distinct, are exactly the expected ones,
      and convert to identifiers, and all signatures verify. The result is then the list as it came. */
  method ValidateTransactions(verify: Verifier, txs: seq<SignedTx>, expected: set<string>)
    returns (r: Result<seq<SignedTx>, Failure>)
    ensures r.Ok? <==> DistinctDigests(txs) && Digests(txs) == expected && SignaturesOk(verify, txs) && HaveIds(txs)
    ensures r.Ok? ==> r.value == txs
  {
    var valid: seq<SignedTx> := [];
    var rest := expected;
    for i := 0 to |txs|
      invariant valid == txs[..i]
      invariant DistinctDigests(txs[..i]) && SignaturesOk(verify, txs[..i]) && HaveIds(txs[..i])
      invariant Digests(txs[..i]) <= expected && rest == expected - Digests(txs[..i])
    {
      var tx := txs[i];
      var text := HexEncode(tx.digest);
      MatchedOrRepeated(txs, i);
      if !tx.hasId {
        return Err(NoId);
      }
      if text !in rest {
        return Err(UnknownDigest);
      }
      if !verify(tx.source, tx.signedDigest, tx.signature) {
        return Err(BadSignature);
      }
      assert txs[..i + 1] == txs[..i] + [tx];
      DigestsSnoc(txs[..i], tx);
      valid := valid + [tx];
      rest := rest - {text};
    }
    assert txs[..|txs|] == txs;
    if rest != {} {
      return Err(DigestsLeft);
    }
    assert expected <= Digests(txs) + rest;
    return Ok(valid);
  }

  lemma DigestsSnoc(txs: seq<SignedTx>, tx: SignedTx)
    ensures Digests(txs + [tx]) == Digests(txs) + {HexEncode(tx.digest)}
  {
    var all := txs + [tx];
    assert all[|txs|] == tx;
    forall s | s in Digests(txs) ensures s in Digests(all) {
      var i :| 0 <= i < |txs| && HexEncode(txs[i].digest) == s;
      assert all[i] == txs[i];
    }
    forall s | s in Digests(all) ensures s in Digests(txs) + {HexEncode(tx.digest)} {
      var i :| 0 <= i < |all| && HexEncode(all[i].digest) == s;
      assert i < |txs| ==> all[i] == txs[i];
    }
  }

  /** A digest already among those of earlier transactions is a repetition, and every digest is among
      those of the whole list. */
  lemma MatchedOrRepeated(txs: seq<SignedTx>, i: nat)
    requires i < |txs|
    ensures HexEncode(txs[i].digest) in Digests(txs)
    ensures HexEncode(txs[i].digest) in Digests(txs[..i]) <==> exists j :: 0 <= j < i && txs[j].digest == txs[i].digest
  {
    if HexEncode(txs[i].digest) in Digests(txs[..i]) {
      var j :| 0 <= j < |txs[..i]| && HexEncode(txs[..i][j].digest) == HexEncode(txs[i].digest);
      HexInjective(txs[j].digest, txs[i].digest);
    }
    if j :| 0 <= j < i && txs[j].digest == txs[i].digest {
      assert txs[..i][j] == txs[j];
    }
  }

  ghost predicate HasDigest(txs: seq<SignedTx>, d: Digest)
  {
    exists i :: 0 <= i < |txs| && txs[i].digest == d
  }

  /** The digests of the transactions are exactly the non-zero ones of the tick data. */
  ghost predicate MatchesTickData(txs: seq<SignedTx>, slots: seq<Digest>)
  {
    forall d: Digest :: d != ZeroDigest() && d in slots <==> HasDigest(txs, d)
  }

  lemma DigestHasText(txs: seq<SignedTx>, d: Digest)
    ensures HexEncode(d) in Digests(txs) <==> HasDigest(txs, d)
  {
    if HexEncode(d) in Digests(txs) {
      var i :| 0 <= i < |txs| && HexEncode(txs[i].digest) == HexEncode(d);
      HexInjective(txs[i].digest, d);
    }
  }

  lemma TextIffSlot(slots: seq<Digest>, d: Digest)
    ensures HexEncode(d) in Texts(slots) <==> d != ZeroDigest() && d in slots
  {
    if HexEncode(d) in Texts(slots) {
      var i := TextOfSlot(slots, HexEncode(d));
      HexInjective(slots[i], d);
    }
    if d != ZeroDigest() && d in slots {
      var i :| 0 <= i < |slots| && slots[i] == d;
      SlotHasText(slots, i);
    }
  }

  lemma MatchIffSameTexts(txs: seq<SignedTx>, slots: seq<Digest>)
    ensures Digests(txs) == Texts(slots) <==> MatchesTickData(txs, slots)
  {
    if Digests(txs) == Texts(slots) {
      forall d: Digest ensures d != ZeroDigest() && d in slots <==> HasDigest(txs, d) {
        DigestHasText(txs, d);
        TextIffSlot(slots, d);
      }
    }
    if MatchesTickData(txs, slots) {
      forall s ensures s in Texts(slots) <==> s in Digests(txs) {
        MatchGivesText(txs, slots, s);
      }
      assert Digests(txs) == Texts(slots);
    }
  }

  lemma MatchGivesText(txs: seq<SignedTx>, slots: seq<Digest>, s: string)
    requires MatchesTickData(txs, slots)
    ensures s in Texts(slots) <==> s in Digests(txs)
  {
    if s in Texts(slots) {
      var i := TextOfSlot(slots, s);
      assert slots[i] in slots;
      DigestHasText(txs, slots[i]);
    }
    if s in Digests(txs) {
      var i :| 0 <= i < |txs| && HexEncode(txs[i].digest) == s;
      TextIffSlot(slots, txs[i].digest);
      assert HasDigest(txs, txs[i].digest);
      assert txs[i].digest in slots;
    }
  }

  /** A tick without digests accepts any transactions and keeps none. Otherwise validation succeeds
      exactly if the transactions' digests are pairwise distinct and are the non-zero digests of the
      tick data and convert to identifiers, and every signature verifies; the result is the list unchanged. */
  method Validate(verify: Verifier, txs: seq<SignedTx>, slots: seq<Digest>) returns (r: Result<seq<SignedTx>, Failure>)
    ensures (forall d :: d in slots ==> d == ZeroDigest()) ==> r == Ok([])
    ensures (exists d :: d in slots && d != ZeroDigest()) ==>
              && (r.Ok? <==> Acceptable(verify, txs, slots))
              && (r.Ok? ==> r.value == txs)
  {
    var m := CreateTxDigestsMap(slots);
    SomeText(slots);
    if m == {} {
      return Ok([]);
    }
    r := ValidateTransactions(verify, txs, m);
    MatchIffSameTexts(txs, slots);
    AcceptableIff(verify, txs, slots);
  }

  /** The digests are pairwise distinct and are exactly the non-zero ones of the tick data, every digest
      converts to an identifier, and every signature verifies under the source's key. */
  ghost predicate Acceptable(verify: Verifier, txs: seq<SignedTx>, slots: seq<Digest>)
  {
    && (forall i, j :: 0 <= i < j < |txs| ==> txs[i].digest != txs[j].digest)
    && MatchesTickData(txs, slots)
    && (forall i :: 0 <= i < |txs| ==>
          txs[i].hasId && verify(txs[i].source, txs[i].signedDigest, txs[i].signature))
  }

  lemma AcceptableIff(verify: Verifier, txs: seq<SignedTx>, slots: seq<Digest>)
    ensures Acceptable(verify, txs, slots)
            <==> && DistinctDigests(txs) && MatchesTickData(txs, slots) && SignaturesOk(verify, txs) && HaveIds(txs)
  {}

  lemma SomeText(slots: seq<Digest>)
    ensures Texts(slots) == {} <==> forall d :: d in slots ==> d == ZeroDigest()
  {
    if s :| s in Texts(slots) {
      var i := TextOfSlot(slots, s);
      assert slots[i] in slots;
    }
    if d :| d in slots && d != ZeroDigest() {
      TextIffSlot(slots, d);
    }
  }
}
