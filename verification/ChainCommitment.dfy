/** What a chain digest commits to: the vote contents back to the latest start of the chain, unless the
    two compared chains themselves exhibit a hash collision or a link with the digest zero. */
module ChainCommitment {
  import opened Bytes
  import opened Votes
  import opened QuorumRecords
  import opened Archive
  import opened ArchiveRuns

  /** The chain starts anew at this link. */
  predicate Starts(l: Log, i: nat)
    requires i < |l|
  {
    i == 0 || l[i].reset
  }

  /** The bytes that are hashed for a link. */
  function LinkInput(k: Codec, l: Log, i: nat): (b: bytes)
    requires i < |l|
  {
    ChainBytes(ChainContentOf(l[i].votes[0]), if Starts(l, i) then ZeroDigest() else DigestAt(k, l, i - 1))
  }

  lemma DigestIsHashed(k: Codec, l: Log, i: nat)
    requires i < |l|
    ensures DigestAt(k, l, i) == k.hash(LinkInput(k, l, i))
  {}

  /** The votes agree on everything a chain digest covers. */
  predicate SameFields(v: Vote, w: Vote)
  {
    && v.epoch == w.epoch && v.tick == w.tick && v.millisecond == w.millisecond && v.clock == w.clock
    && v.prevResource == w.prevResource && v.prevBody == w.prevBody
    && v.prevSpectrum == w.prevSpectrum && v.prevUniverse == w.prevUniverse && v.prevComputer == w.prevComputer
    && v.txDigest == w.txDigest
  }

  lemma FieldsAreContent(v: Vote, w: Vote)
    ensures SameFields(v, w) <==> ChainContentOf(v) == ChainContentOf(w)
  {}

  /** After any run, the chain digest stored for a recorded tick is the hash of 184 bytes: two of padding, then
      epoch, tick, millisecond, clock, the previous resource and transaction body digests, the previous
      spectrum, universe and computer digests and the transaction digest of its first vote, and last the
      digest stored for the tick recorded before it, or zeros where the chain starts. */
  lemma LinkOverRuns(k: Codec, run: seq<Action>, i: nat) returns (b: bytes)
    requires ActionsOk(k, run) && i < |LogOf(k, run)|
    ensures var l, chain := LogOf(k, run), FinalArchive(k, run).chain;
            var v, t := l[i].votes[0], l[i].tick.tick;
            && t in chain && chain[t] == k.hash(b) && |b| == 184 && b[0..2] == [0, 0]
            && b[2..4] == LittleEndian(v.epoch, 2) && b[4..8] == LittleEndian(v.tick, 4)
            && b[8..10] == LittleEndian(v.millisecond, 2) && b[10..16] == v.clock
            && b[16..20] == LittleEndian(v.prevResource, 4) && b[20..24] == LittleEndian(v.prevBody, 4)
            && b[24..56] == v.prevSpectrum && b[56..88] == v.prevUniverse && b[88..120] == v.prevComputer
            && b[120..152] == v.txDigest
            && (i == 0 || l[i].reset ==> b[152..184] == ZeroDigest())
            && (i > 0 && !l[i].reset ==> l[i - 1].tick.tick in chain && b[152..184] == chain[l[i - 1].tick.tick])
  {
    var l := LogOf(k, run);
    RunKeepsArchive(k, run);
    b := LinkBytes(k, l, i);
    DigestIsStored(k, FinalArchive(k, run), l, i);
    if !Starts(l, i) {
      DigestIsStored(k, FinalArchive(k, run), l, i - 1);
    }
  }

  lemma LinkBytes(k: Codec, l: Log, i: nat) returns (b: bytes)
    requires i < |l|
    ensures var v := l[i].votes[0];
            && DigestAt(k, l, i) == k.hash(b) && |b| == 184 && b[0..2] == [0, 0]
            && b[2..4] == LittleEndian(v.epoch, 2) && b[4..8] == LittleEndian(v.tick, 4)
            && b[8..10] == LittleEndian(v.millisecond, 2) && b[10..16] == v.clock
            && b[16..20] == LittleEndian(v.prevResource, 4) && b[20..24] == LittleEndian(v.prevBody, 4)
            && b[24..56] == v.prevSpectrum && b[56..88] == v.prevUniverse && b[88..120] == v.prevComputer
            && b[120..152] == v.txDigest
            && b[152..184] == if Starts(l, i) then ZeroDigest() else DigestAt(k, l, i - 1)
  {
    DigestIsHashed(k, l, i);
    b := LinkInput(k, l, i);
    ChainLayout(l[i].votes[0], if Starts(l, i) then ZeroDigest() else DigestAt(k, l, i - 1));
  }

  /** The recorded votes agree, link by link, back to the latest start of the chain, and both chains start
      there. */
  ghost predicate SameChain(l1: Log, i: nat, l2: Log, j: nat)
    requires i < |l1| && j < |l2|
    decreases i
  {
    && SameFields(l1[i].votes[0], l2[j].votes[0])
    && (Starts(l1, i) <==> Starts(l2, j))
    && (!Starts(l1, i) && !Starts(l2, j) ==> SameChain(l1, i - 1, l2, j - 1))
  }

  /** Two links, one of each chain and not beyond the given ones, that were hashed from different bytes
      to the same digest. */
  ghost predicate LinksCollide(k: Codec, l1: Log, i: nat, l2: Log, j: nat)
    requires i < |l1| && j < |l2|
  {
    exists a, b :: 0 <= a <= i && 0 <= b <= j && CollideAt(k, l1, a, l2, b)
  }

  ghost predicate CollideAt(k: Codec, l1: Log, a: nat, l2: Log, b: nat)
    requires a < |l1| && b < |l2|
  {
    LinkInput(k, l1, a) != LinkInput(k, l2, b) && k.hash(LinkInput(k, l1, a)) == k.hash(LinkInput(k, l2, b))
  }

  /** A link before the given one that was hashed to zero, the value from which a chain starts. */
  ghost predicate ZeroLink(k: Codec, l: Log, i: nat)
    requires i < |l|
  {
    exists a :: 0 <= a < i && k.hash(LinkInput(k, l, a)) == ZeroDigest()
  }

  lemma CollideBelow(k: Codec, l1: Log, i: nat, l2: Log, j: nat)
    requires 0 < i < |l1| && 0 < j < |l2| && LinksCollide(k, l1, i - 1, l2, j - 1)
    ensures LinksCollide(k, l1, i, l2, j)
  {
    var a, b :| 0 <= a <= i - 1 && 0 <= b <= j - 1 && CollideAt(k, l1, a, l2, b);
    assert 0 <= a <= i && 0 <= b <= j && CollideAt(k, l1, a, l2, b);
  }

  lemma ZeroBelow(k: Codec, l: Log, i: nat)
    requires 0 < i < |l|
    ensures ZeroLink(k, l, i - 1) || DigestAt(k, l, i - 1) == ZeroDigest() ==> ZeroLink(k, l, i)
  {
    DigestIsHashed(k, l, i - 1);
  }

  /** Equal chain digests commit to equal vote contents at every tick back to the latest start of the
      chain, and to the place of that start; otherwise two links of the two chains collide or a link of
      one of them has the digest zero. */
  lemma {:induction false} ChainCommits(k: Codec, l1: Log, i: nat, l2: Log, j: nat)
    requires i < |l1| && j < |l2| && DigestAt(k, l1, i) == DigestAt(k, l2, j)
    ensures SameChain(l1, i, l2, j) || LinksCollide(k, l1, i, l2, j) || ZeroLink(k, l1, i) || ZeroLink(k, l2, j)
    decreases i
  {
    DigestIsHashed(k, l1, i);
    DigestIsHashed(k, l2, j);
    if LinkInput(k, l1, i) != LinkInput(k, l2, j) {
      assert CollideAt(k, l1, i, l2, j);
    } else {
      var p := if Starts(l1, i) then ZeroDigest() else DigestAt(k, l1, i - 1);
      var q := if Starts(l2, j) then ZeroDigest() else DigestAt(k, l2, j - 1);
      ChainBytesInjective(ChainContentOf(l1[i].votes[0]), p, ChainContentOf(l2[j].votes[0]), q);
      FieldsAreContent(l1[i].votes[0], l2[j].votes[0]);
      if !Starts(l1, i) {
        ZeroBelow(k, l1, i);
      }
      if !Starts(l2, j) {
        ZeroBelow(k, l2, j);
      }
      if !Starts(l1, i) && !Starts(l2, j) {
        ChainCommits(k, l1, i - 1, l2, j - 1);
        if LinksCollide(k, l1, i - 1, l2, j - 1) {
          CollideBelow(k, l1, i, l2, j);
        }
      }
    }
  }

  /** Conversely, equal contents back to the start give equal digests. */
  lemma {:induction false} SameChainSameDigest(k: Codec, l1: Log, i: nat, l2: Log, j: nat)
    requires i < |l1| && j < |l2| && SameChain(l1, i, l2, j)
    ensures DigestAt(k, l1, i) == DigestAt(k, l2, j)
    decreases i
  {
    FieldsAreContent(l1[i].votes[0], l2[j].votes[0]);
    if !Starts(l1, i) {
      SameChainSameDigest(k, l1, i - 1, l2, j - 1);
    }
  }

  /** Two archives, each after any run, at whose recorded ticks no two links collide and no link has the
      digest zero: they store equal chain digests exactly if they recorded the same vote contents back
      to the latest restart of the chain. */
  lemma StoredDigestsCommit(k: Codec, run1: seq<Action>, i: nat, run2: seq<Action>, j: nat)
    requires ActionsOk(k, run1) && ActionsOk(k, run2) && i < |LogOf(k, run1)| && j < |LogOf(k, run2)|
    requires !LinksCollide(k, LogOf(k, run1), i, LogOf(k, run2), j)
    requires !ZeroLink(k, LogOf(k, run1), i) && !ZeroLink(k, LogOf(k, run2), j)
    ensures var c1, c2 := FinalArchive(k, run1).chain, FinalArchive(k, run2).chain;
            var t1, t2 := LogOf(k, run1)[i].tick.tick, LogOf(k, run2)[j].tick.tick;
            && t1 in c1 && t2 in c2
            && (c1[t1] == c2[t2] <==> SameChain(LogOf(k, run1), i, LogOf(k, run2), j))
  {
    RunKeepsArchive(k, run1);
    RunKeepsArchive(k, run2);
    DigestIsStored(k, FinalArchive(k, run1), LogOf(k, run1), i);
    DigestIsStored(k, FinalArchive(k, run2), LogOf(k, run2), j);
    DigestsAgreeIff(k, LogOf(k, run1), i, LogOf(k, run2), j);
  }

  lemma DigestsAgreeIff(k: Codec, l1: Log, i: nat, l2: Log, j: nat)
    requires i < |l1| && j < |l2|
    requires !LinksCollide(k, l1, i, l2, j) && !ZeroLink(k, l1, i) && !ZeroLink(k, l2, j)
    ensures DigestAt(k, l1, i) == DigestAt(k, l2, j) <==> SameChain(l1, i, l2, j)
  {
    if DigestAt(k, l1, i) == DigestAt(k, l2, j) {
      ChainCommits(k, l1, i, l2, j);
    }
    if SameChain(l1, i, l2, j) {
      SameChainSameDigest(k, l1, i, l2, j);
    }
  }
}
