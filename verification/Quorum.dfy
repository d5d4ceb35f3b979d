/** Choosing the aligned votes of a tick and checking their signatures. */
module Quorum {
  import opened Bytes
  import opened Wrappers
  import opened Votes
  import opened Selection

  /** The cryptographic functions, which are not part of this model. */
  datatype Crypto = Crypto(
    hash: bytes -> Digest,
    unsigned: Vote -> bytes,                    // the serialized vote without its signature
    verify: (Digest, Digest, Signature) -> bool,
    hasIdentity: Digest -> bool)                // conversion of a key to an identity succeeds

  /** The class of votes a vote is aligned with. */
  function Class(c: Crypto, v: Vote): (d: Digest)
  {
    c.hash(AlignmentBytes(ContentOf(v)))
  }

  /** The votes of one class, in input order. */
  function VotesOf(c: Crypto, votes: seq<Vote>, d: Digest): (r: seq<Vote>)
  {
    if votes == [] then []
    else
      var v := votes[|votes| - 1];
      VotesOf(c, votes[..|votes| - 1], d) + if Class(c, v) == d then [v] else []
  }

  lemma {:induction false} VotesOfMembers(c: Crypto, votes: seq<Vote>, d: Digest)
    ensures forall v :: v in VotesOf(c, votes, d) <==> v in votes && Class(c, v) == d
  {
    if votes != [] {
      var init, w := votes[..|votes| - 1], votes[|votes| - 1];
      VotesOfMembers(c, init, d);
      assert votes == init + [w];
    }
  }

  /** Exactly the votes whose compared content has the digest, in input order. */
  lemma {:induction false} VotesOfSelects(c: Crypto, votes: seq<Vote>, d: Digest, keep: Vote -> bool)
    requires forall v :: keep(v) <==> c.hash(AlignmentBytes(ContentOf(v))) == d
    ensures Selects(votes, VotesOf(c, votes, d), keep)
  {
    if votes == [] {
      SelectsNone(keep);
    } else {
      VotesOfSelects(c, votes[..|votes| - 1], d, keep);
      SelectsLast(votes, VotesOf(c, votes[..|votes| - 1], d), VotesOf(c, votes, d), keep);
    }
  }

  lemma VotesOfSnoc(c: Crypto, votes: seq<Vote>, v: Vote, d: Digest)
    ensures VotesOf(c, votes + [v], d) == VotesOf(c, votes, d) + if Class(c, v) == d then [v] else []
  {
    assert (votes + [v])[..|votes|] == votes;
  }

  ghost predicate IsLargest(c: Crypto, votes: seq<Vote>, d: Digest)
  {
    forall e :: |VotesOf(c, votes, e)| <= |VotesOf(c, votes, d)|
  }

  /** The choice goes over the classes in the arbitrary order of a hash map. Whatever that order, the
      result is, in input order, all votes of one class of maximum size. */
  method GetAlignedVotes(c: Crypto, votes: seq<Vote>) returns (aligned: seq<Vote>)
    ensures exists d :: IsLargest(c, votes, d) && aligned == VotesOf(c, votes, d)
  {
    var heat := HeatMap(c, votes);
    aligned := [];
    ghost var chosen := ZeroDigest();
    var rest := heat.Keys;
    while rest != {}
      invariant rest <= heat.Keys
      invariant aligned == [] || (chosen in heat && aligned == heat[chosen])
      invariant forall d :: d in heat && d !in rest ==> |heat[d]| <= |aligned|
      decreases |rest|
    {
      var d :| d in rest;
      rest := rest - {d};
      if |heat[d]| > |aligned| {
        aligned := heat[d];
        chosen := d;
      }
    }
    if aligned == [] {
      LargestWhenEmpty(c, votes, heat);
    } else {
      assert IsLargest(c, votes, chosen);
    }
  }

  lemma LargestWhenEmpty(c: Crypto, votes: seq<Vote>, heat: map<Digest, seq<Vote>>)
    requires forall d :: VotesOf(c, votes, d) == if d in heat then heat[d] else []
    requires forall d :: d in heat ==> heat[d] == []
    ensures IsLargest(c, votes, ZeroDigest()) && VotesOf(c, votes, ZeroDigest()) == []
  {}

  method HeatMap(c: Crypto, votes: seq<Vote>) returns (heat: map<Digest, seq<Vote>>)
    ensures forall d :: VotesOf(c, votes, d) == if d in heat then heat[d] else []
  {
    heat := map[];
    for i := 0 to |votes|
      invariant forall d :: VotesOf(c, votes[..i], d) == if d in heat then heat[d] else []
    {
      var d := Class(c, votes[i]);
      assert votes[..i + 1] == votes[..i] + [votes[i]];
      forall e ensures VotesOf(c, votes[..i + 1], e)
                       == VotesOf(c, votes[..i], e) + if d == e then [votes[i]] else []
      {
        VotesOfSnoc(c, votes[..i], votes[i], e);
      }
      if d !in heat {
        heat := heat[d := [votes[i]]];
      } else {
        heat := heat[d := heat[d] + [votes[i]]];
      }
    }
    assert votes[..|votes|] == votes;
  }

  // ---------- signatures ----------

  /** `ComputorIndex ^= 3` on a 16-bit index. */
  function Salted(i: uint16): (r: uint16)
    ensures r != i
  {
    i - i % 4 + (3 - i % 4)
  }

  /** The two lowest bits are flipped and the others kept, which is what the operator does. */
  lemma SaltedIsXor(i: uint16)
    ensures Salted(i) / 4 == i / 4 && Salted(i) / 2 % 2 != i / 2 % 2 && Salted(i) % 2 != i % 2
    ensures Salted(Salted(i)) == i
  {}

  function SignedDigest(c: Crypto, v: Vote): (d: Digest)
  {
    c.hash(c.unsigned(v.(computorIndex := Salted(v.computorIndex))))
  }

  /** The score of a signature: its first four bytes, swapped and read as little-endian. */
  function Score(s: Signature): (n: nat)
  {
    FromLittleEndian(Reverse(s[..4]))
  }

  lemma ScoreIsBigEndian(s: Signature)
    ensures Score(s) == FromBigEndian(s[..4]) < 0x1_0000_0000
  {
    Pow256Values();
    ReversedLittleIsBig(s[..4]);
    FromBigEndianRange(s[..4]);
  }

  predicate ValidVote(c: Crypto, keys: seq<Digest>, target: uint32, v: Vote)
    requires v.computorIndex < |keys|
  {
    Score(v.signature) <= target && c.verify(keys[v.computorIndex], SignedDigest(c, v), v.signature)
  }

  predicate IndicesInRange(votes: seq<Vote>, n: nat)
  {
    forall i :: 0 <= i < |votes| ==> votes[i].computorIndex < n
  }

  function CountValid(c: Crypto, keys: seq<Digest>, target: uint32, votes: seq<Vote>): (n: nat)
    requires IndicesInRange(votes, |keys|)
  {
    if votes == [] then 0
    else
      CountValid(c, keys, target, votes[..|votes| - 1])
      + if ValidVote(c, keys, target, votes[|votes| - 1]) then 1 else 0
  }

  /** A vote with a bad signature whose key has no identity ends the check with an error. */
  predicate FailuresIdentified(c: Crypto, keys: seq<Digest>, target: uint32, votes: seq<Vote>)
    requires IndicesInRange(votes, |keys|)
  {
    forall i :: 0 <= i < |votes| ==>
      ValidVote(c, keys, target, votes[i]) || c.hasIdentity(keys[votes[i].computorIndex])
  }

  /** A vote counts exactly if the first four bytes of its signature, as a big-endian number, are at most the
      target, and the signature verifies under the computor's key, over the hash of the unsigned vote with
      its index salted. */
  lemma ValidVoteIff(c: Crypto, keys: seq<Digest>, target: uint32, v: Vote)
    requires v.computorIndex < |keys|
    ensures ValidVote(c, keys, target, v) <==>
            && FromBigEndian(v.signature[..4]) <= target
            && c.verify(keys[v.computorIndex], c.hash(c.unsigned(v.(computorIndex := Salted(v.computorIndex)))),
                        v.signature)
  {
    ScoreIsBigEndian(v.signature);
  }

  lemma {:induction false} CountIsPositions(c: Crypto, keys: seq<Digest>, target: uint32, votes: seq<Vote>,
                                            good: set<nat>)
    requires IndicesInRange(votes, |keys|)
    requires forall i: nat :: i in good <==> i < |votes| && ValidVote(c, keys, target, votes[i])
    ensures CountValid(c, keys, target, votes) == |good|
  {
    if votes == [] {
      assert good == {};
    } else {
      var n: nat := |votes| - 1;
      CountIsPositions(c, keys, target, votes[..n], good - {n});
    }
  }

  /** The positions of the votes whose score is at most the target and whose signature verifies. */
  ghost predicate ArePositions(c: Crypto, keys: seq<Digest>, target: uint32, votes: seq<Vote>, good: set<nat>)
  {
    forall i: nat :: i in good <==>
      && i < |votes| && votes[i].computorIndex < |keys|
      && FromBigEndian(votes[i].signature[..4]) <= target
      && c.verify(keys[votes[i].computorIndex],
                  c.hash(c.unsigned(votes[i].(computorIndex := Salted(votes[i].computorIndex)))), votes[i].signature)
  }

  lemma PositionsAreValid(c: Crypto, keys: seq<Digest>, target: uint32, votes: seq<Vote>, good: set<nat>)
    requires IndicesInRange(votes, |keys|) && ArePositions(c, keys, target, votes, good)
    ensures forall i: nat :: i in good <==> i < |votes| && ValidVote(c, keys, target, votes[i])
  {
    forall i: nat | i < |votes| ensures i in good <==> ValidVote(c, keys, target, votes[i]) {
      ValidVoteIff(c, keys, target, votes[i]);
    }
  }

  /** The check succeeds exactly if at least `q` positions hold a vote whose score is at most the target and
      whose signature verifies, and the key of every other vote has an identity. */
  lemma SignatureCheckIff(c: Crypto, q: nat, keys: seq<Digest>, target: uint32, votes: seq<Vote>, good: set<nat>)
    requires IndicesInRange(votes, |keys|) && ArePositions(c, keys, target, votes, good)
    ensures SignatureCheck(c, q, keys, target, votes) == None <==>
              && |good| >= q
              && forall i: nat :: i < |votes| && i !in good ==> c.hasIdentity(keys[votes[i].computorIndex])
  {
    PositionsAreValid(c, keys, target, votes, good);
    CountIsPositions(c, keys, target, votes, good);
    IdentifiedIff(c, keys, target, votes, good);
  }

  lemma IdentifiedIff(c: Crypto, keys: seq<Digest>, target: uint32, votes: seq<Vote>, good: set<nat>)
    requires IndicesInRange(votes, |keys|)
    requires forall i: nat :: i in good <==> i < |votes| && ValidVote(c, keys, target, votes[i])
    ensures FailuresIdentified(c, keys, target, votes) <==>
            forall i: nat :: i < |votes| && i !in good ==> c.hasIdentity(keys[votes[i].computorIndex])
  {}

  datatype Failure = NotEnoughVotes | NotEnoughAligned | UnknownComputor | NotEnoughSignatures

  function SignatureCheck(c: Crypto, q: nat, keys: seq<Digest>, target: uint32, votes: seq<Vote>): (r: Option<Failure>)
    requires IndicesInRange(votes, |keys|)
  {
    if !FailuresIdentified(c, keys, target, votes) then Some(UnknownComputor)
    else if CountValid(c, keys, target, votes) < q then Some(NotEnoughSignatures)
    else None
  }

  method QuorumTickSigVerify(c: Crypto, q: nat, keys: seq<Digest>, target: uint32, votes: seq<Vote>)
    returns (r: Option<Failure>)
    requires IndicesInRange(votes, |keys|)
    ensures r == SignatureCheck(c, q, keys, target, votes)
  {
    var successes := 0;
    for i := 0 to |votes|
      invariant successes == CountValid(c, keys, target, votes[..i])
      invariant FailuresIdentified(c, keys, target, votes[..i])
    {
      var v := votes[i];
      assert votes[..i + 1][..i] == votes[..i];
      if !ValidVote(c, keys, target, v) {
        if !c.hasIdentity(keys[v.computorIndex]) {
          return Some(UnknownComputor);
        }
      } else {
        successes := successes + 1;
      }
    }
    assert votes[..|votes|] == votes;
    if successes < q {
      return Some(NotEnoughSignatures);
    }
    return None;
  }

  type Outcome = Result<seq<Vote>, Failure>

  function Judge(c: Crypto, q: nat, keys: seq<Digest>, target: uint32, aligned: seq<Vote>): (r: Outcome)
    requires |aligned| >= q ==> IndicesInRange(aligned, |keys|)
  {
    if |aligned| < q then Err(NotEnoughAligned)
    else match SignatureCheck(c, q, keys, target, aligned)
      case Some(f) => Err(f)
      case None => Ok(aligned)
  }

  /** Keys are looked up for the aligned votes alone, and only if they are a quorum. */
  ghost predicate AlignedInRange(c: Crypto, q: nat, votes: seq<Vote>, n: nat)
  {
    forall d :: IsLargest(c, votes, d) && |VotesOf(c, votes, d)| >= q ==> IndicesInRange(VotesOf(c, votes, d), n)
  }

  /** The outcomes validation can have, over all orders in which classes may be visited. */
  ghost predicate Possible(c: Crypto, q: nat, keys: seq<Digest>, target: uint32, votes: seq<Vote>, r: Outcome)
    requires AlignedInRange(c, q, votes, |keys|)
  {
    if |votes| < q then r == Err(NotEnoughVotes)
    else exists d :: IsLargest(c, votes, d) && Judged(c, q, keys, target, votes, d, r)
  }

  ghost predicate Judged(c: Crypto, q: nat, keys: seq<Digest>, target: uint32, votes: seq<Vote>, d: Digest, r: Outcome)
    requires |VotesOf(c, votes, d)| >= q ==> IndicesInRange(VotesOf(c, votes, d), |keys|)
  {
    r == Judge(c, q, keys, target, VotesOf(c, votes, d))
  }

  method Validate(c: Crypto, q: nat, keys: seq<Digest>, target: uint32, votes: seq<Vote>) returns (r: Outcome)
    requires AlignedInRange(c, q, votes, |keys|)
    ensures Possible(c, q, keys, target, votes, r)
  {
    if |votes| < q {
      return Err(NotEnoughVotes);
    }
    var aligned := GetAlignedVotes(c, votes);
    ghost var d :| IsLargest(c, votes, d) && aligned == VotesOf(c, votes, d);
    if |aligned| < q {
      r := Err(NotEnoughAligned);
    } else {
      var failure := QuorumTickSigVerify(c, q, keys, target, aligned);
      r := if failure.Some? then Err(failure.value) else Ok(aligned);
    }
    assert Judged(c, q, keys, target, votes, d, r);
  }

  /** Validation can return a list exactly if there is a quorum of votes, the list is a largest class of
      aligned votes and a quorum itself, at least `q` of its positions hold a vote whose score is at most the
      target and whose signature verifies, and the key of every other vote has an identity. */
  lemma ValidationSucceedsIff(c: Crypto, q: nat, keys: seq<Digest>, target: uint32, votes: seq<Vote>, a: seq<Vote>,
                              good: set<nat>)
    requires AlignedInRange(c, q, votes, |keys|)
    requires forall i: nat :: i in good <==>
               && i < |a| && a[i].computorIndex < |keys|
               && FromBigEndian(a[i].signature[..4]) <= target
               && c.verify(keys[a[i].computorIndex],
                           c.hash(c.unsigned(a[i].(computorIndex := Salted(a[i].computorIndex)))), a[i].signature)
    ensures Possible(c, q, keys, target, votes, Ok(a)) <==>
              && |votes| >= q && |a| >= q && IndicesInRange(a, |keys|)
              && (exists d :: IsLargest(c, votes, d) && a == VotesOf(c, votes, d))
              && |good| >= q
              && forall i: nat :: i < |a| && i !in good ==> c.hasIdentity(keys[a[i].computorIndex])
  {
    assert ArePositions(c, keys, target, a, good);
    if IndicesInRange(a, |keys|) {
      SignatureCheckIff(c, q, keys, target, a, good);
    }
    if Possible(c, q, keys, target, votes, Ok(a)) {
      var d :| IsLargest(c, votes, d) && Judged(c, q, keys, target, votes, d, Ok(a));
      assert a == VotesOf(c, votes, d);
    }
    if |votes| >= q && |a| >= q && exists d :: IsLargest(c, votes, d) && a == VotesOf(c, votes, d) {
      var d :| IsLargest(c, votes, d) && a == VotesOf(c, votes, d);
      if SignatureCheck(c, q, keys, target, a) == None {
        assert Judged(c, q, keys, target, votes, d, Ok(a));
      }
    }
  }

  // ---------- independence of the visiting order ----------

  lemma {:induction false} ClassesAreDisjoint(c: Crypto, votes: seq<Vote>, d: Digest, e: Digest)
    requires d != e
    ensures |VotesOf(c, votes, d)| + |VotesOf(c, votes, e)| <= |votes|
  {
    if votes != [] {
      ClassesAreDisjoint(c, votes[..|votes| - 1], d, e);
    }
  }

  /** If the votes number fewer than two quorums, the outcome does not depend on the visiting order. */
  lemma OutcomeIsDetermined(c: Crypto, q: nat, keys: seq<Digest>, target: uint32, votes: seq<Vote>, r1: Outcome,
                            r2: Outcome)
    requires AlignedInRange(c, q, votes, |keys|) && 2 * q > |votes|
    requires Possible(c, q, keys, target, votes, r1) && Possible(c, q, keys, target, votes, r2)
    ensures r1 == r2
  {
    if |votes| >= q {
      var d :| IsLargest(c, votes, d) && Judged(c, q, keys, target, votes, d, r1);
      var e :| IsLargest(c, votes, e) && Judged(c, q, keys, target, votes, e, r2);
      assert |VotesOf(c, votes, d)| == |VotesOf(c, votes, e)|;
      if d != e {
        ClassesAreDisjoint(c, votes, d, e);
      }
    }
  }

  /** The serialized contents of two votes are different but have one digest. */
  predicate ContentsCollide(c: Crypto, v: Vote, w: Vote)
  {
    var a, b := AlignmentBytes(ContentOf(v)), AlignmentBytes(ContentOf(w));
    a != b && c.hash(a) == c.hash(b)
  }

  /** Votes are aligned exactly if they agree on everything that is compared, unless their own
      serialized contents collide. */
  lemma AlignedVotesAgree(c: Crypto, votes: seq<Vote>, d: Digest, v: Vote, w: Vote)
    requires v in VotesOf(c, votes, d) && w in votes
    ensures w in VotesOf(c, votes, d) <==>
            || ContentsCollide(c, v, w)
            || (&& v.epoch == w.epoch && v.tick == w.tick && v.millisecond == w.millisecond && v.clock == w.clock
                && v.prevResource == w.prevResource && v.prevSpectrum == w.prevSpectrum
                && v.prevUniverse == w.prevUniverse && v.prevComputer == w.prevComputer && v.txDigest == w.txDigest)
  {
    VotesOfMembers(c, votes, d);
    if AlignmentBytes(ContentOf(v)) == AlignmentBytes(ContentOf(w)) {
      AlignmentBytesInjective(ContentOf(v), ContentOf(w));
    }
  }

  // ---------- quorum safety ----------

  ghost predicate DistinctIndices(votes: seq<Vote>)
  {
    forall i, j :: 0 <= i < j < |votes| ==> votes[i].computorIndex != votes[j].computorIndex
  }

  /** The computors with a valid vote in the list. */
  function Signers(c: Crypto, keys: seq<Digest>, target: uint32, votes: seq<Vote>): (s: set<nat>)
    requires IndicesInRange(votes, |keys|)
  {
    if votes == [] then {}
    else
      var v := votes[|votes| - 1];
      Signers(c, keys, target, votes[..|votes| - 1])
      + if ValidVote(c, keys, target, v) then {v.computorIndex as nat} else {}
  }

  lemma {:induction false} SignerVoted(c: Crypto, keys: seq<Digest>, target: uint32, votes: seq<Vote>,
                                       n: nat) returns (i: nat)
    requires IndicesInRange(votes, |keys|) && n in Signers(c, keys, target, votes)
    ensures i < |votes| && votes[i].computorIndex == n && ValidVote(c, keys, target, votes[i])
  {
    i := |votes| - 1;
    if !(votes[i].computorIndex == n && ValidVote(c, keys, target, votes[i])) {
      i := SignerVoted(c, keys, target, votes[..i], n);
    }
  }

  lemma {:induction false} SignersCounted(c: Crypto, keys: seq<Digest>, target: uint32, votes: seq<Vote>)
    requires IndicesInRange(votes, |keys|) && DistinctIndices(votes)
    ensures |Signers(c, keys, target, votes)| == CountValid(c, keys, target, votes)
  {
    if votes != [] {
      var init, v := votes[..|votes| - 1], votes[|votes| - 1];
      SignersCounted(c, keys, target, init);
      if v.computorIndex in Signers(c, keys, target, init) {
        var i := SignerVoted(c, keys, target, init, v.computorIndex);
        assert false;
      }
    }
  }

  lemma {:induction false} BoundedSet(s: set<nat>, n: nat)
    requires forall x :: x in s ==> x < n
    ensures |s| <= n
  {
    if n > 0 {
      BoundedSet(s - {n - 1}, n - 1);
    } else {
      assert s == {};
    }
  }

  lemma {:induction false} ClassIndicesDistinct(c: Crypto, votes: seq<Vote>, d: Digest)
    requires DistinctIndices(votes)
    ensures DistinctIndices(VotesOf(c, votes, d))
  {
    if votes != [] {
      var init, v := votes[..|votes| - 1], votes[|votes| - 1];
      ClassIndicesDistinct(c, init, d);
      VotesOfMembers(c, init, d);
      var r := VotesOf(c, init, d);
      forall i | 0 <= i < |r| ensures r[i].computorIndex != v.computorIndex {
        assert r[i] in init;
      }
    }
  }

  /** If two vote lists of distinct computors both validate but to different classes, then at least
      2q - n of the n computors have valid votes in both classes. */
  lemma QuorumSafety(c: Crypto, q: nat, keys: seq<Digest>, target: uint32,
                     votes1: seq<Vote>, votes2: seq<Vote>, a1: seq<Vote>, a2: seq<Vote>)
    requires AlignedInRange(c, q, votes1, |keys|) && AlignedInRange(c, q, votes2, |keys|)
    requires DistinctIndices(votes1) && DistinctIndices(votes2)
    requires Possible(c, q, keys, target, votes1, Ok(a1)) && Possible(c, q, keys, target, votes2, Ok(a2))
    requires a1 != [] && a2 != [] && Class(c, a1[0]) != Class(c, a2[0])
    ensures IndicesInRange(a1, |keys|) && IndicesInRange(a2, |keys|)
    ensures |Signers(c, keys, target, a1) * Signers(c, keys, target, a2)| >= 2 * q - |keys|
    ensures forall n :: n in Signers(c, keys, target, a1) * Signers(c, keys, target, a2) ==>
              Equivocated(c, keys, target, a1, a2, n)
  {
    ValidatedList(c, q, keys, target, votes1, a1);
    ValidatedList(c, q, keys, target, votes2, a2);
    var s1, s2 := Signers(c, keys, target, a1), Signers(c, keys, target, a2);
    forall n | n in s1 + s2 ensures n < |keys| {
      if n in s1 {
        var i := SignerVoted(c, keys, target, a1, n);
      } else {
        var i := SignerVoted(c, keys, target, a2, n);
      }
    }
    BoundedSet(s1 + s2, |keys|);
    assert |s1 + s2| == |s1| + |s2| - |s1 * s2|;
    forall n | n in s1 * s2 ensures Equivocated(c, keys, target, a1, a2, n) {
      var i := SignerVoted(c, keys, target, a1, n);
      var j := SignerVoted(c, keys, target, a2, n);
      assert Class(c, a1[i]) != Class(c, a2[j]);
      ValidVoteIff(c, keys, target, a1[i]);
      ValidVoteIff(c, keys, target, a2[j]);
    }
  }

  /** The score of the signature is at most the target, and the signature verifies under the key. */
  predicate SignedBy(c: Crypto, key: Digest, target: uint32, v: Vote)
  {
    && FromBigEndian(v.signature[..4]) <= target
    && c.verify(key, c.hash(c.unsigned(v.(computorIndex := Salted(v.computorIndex)))), v.signature)
  }

  /** The computor signed votes with different contents in both lists. */
  ghost predicate Equivocated(c: Crypto, keys: seq<Digest>, target: uint32, a1: seq<Vote>, a2: seq<Vote>, n: nat)
    requires IndicesInRange(a1, |keys|) && IndicesInRange(a2, |keys|)
  {
    exists i, j ::
      && 0 <= i < |a1| && 0 <= j < |a2|
      && a1[i].computorIndex == n && a2[j].computorIndex == n && ContentOf(a1[i]) != ContentOf(a2[j])
      && SignedBy(c, keys[n], target, a1[i]) && SignedBy(c, keys[n], target, a2[j])
  }

  /** What a successful validation guarantees about the list it returns. */
  lemma ValidatedList(c: Crypto, q: nat, keys: seq<Digest>, target: uint32, votes: seq<Vote>, a: seq<Vote>)
    requires AlignedInRange(c, q, votes, |keys|) && DistinctIndices(votes)
    requires Possible(c, q, keys, target, votes, Ok(a))
    ensures IndicesInRange(a, |keys|)
    ensures |Signers(c, keys, target, a)| >= q
    ensures forall n :: n in Signers(c, keys, target, a) ==>
              n < |keys| && exists i :: 0 <= i < |a| && a[i].computorIndex == n && SignedBy(c, keys[n], target, a[i])
    ensures forall i :: 0 <= i < |a| ==> Class(c, a[i]) == Class(c, a[0])
    ensures |a| >= q
  {
    var d :| IsLargest(c, votes, d) && Judged(c, q, keys, target, votes, d, Ok(a));
    ClassIndicesDistinct(c, votes, d);
    SignersCounted(c, keys, target, a);
    VotesOfMembers(c, votes, d);
    SignersSigned(c, keys, target, a);
    forall i | 0 <= i < |a| ensures Class(c, a[i]) == d {
      assert a[i] in a;
    }
  }

  lemma SignersSigned(c: Crypto, keys: seq<Digest>, target: uint32, a: seq<Vote>)
    requires IndicesInRange(a, |keys|)
    ensures forall n :: n in Signers(c, keys, target, a) ==>
              n < |keys| && exists i :: 0 <= i < |a| && a[i].computorIndex == n && SignedBy(c, keys[n], target, a[i])
  {
    forall n | n in Signers(c, keys, target, a)
      ensures n < |keys| && exists i :: 0 <= i < |a| && a[i].computorIndex == n && SignedBy(c, keys[n], target, a[i])
    {
      var i := SignerVoted(c, keys, target, a, n);
      ValidVoteIff(c, keys, target, a[i]);
    }
  }
}
