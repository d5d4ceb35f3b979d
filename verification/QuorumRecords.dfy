/** The stored forms of a tick's votes: the full form, the compressed form without the salted
    digests, and the reconstruction of the full form from the compressed forms of a tick and of the
    tick after it. */
module QuorumRecords {
  import opened Bytes
  import opened Wrappers
  import opened Votes

  datatype Structure = Structure(
    epoch: uint32,
    tick: uint32,
    timestamp: nat,
    prevResourceHex: string,
    prevBodyHex: string,
    prevSpectrumHex: string,
    prevUniverseHex: string,
    prevComputerHex: string,
    txDigestHex: string)

  datatype Diff = Diff(
    saltedResourceHex: string,
    saltedBodyHex: string,
    saltedSpectrumHex: string,
    saltedUniverseHex: string,
    saltedComputerHex: string,
    expectedNextTxHex: string,
    signatureHex: string)

  datatype StoredDiff = StoredDiff(expectedNextTxHex: string, signatureHex: string)

  datatype Full = Full(structure: Structure, diffs: map<uint32, Diff>)
  datatype Stored = Stored(structure: Structure, diffs: map<uint32, StoredDiff>)

  /** Conversions that are not part of this model: the hash, the calendar, and identities to keys. */
  datatype Codec = Codec(
    hash: bytes -> Digest,
    timestamp: Vote -> nat,
    toPubKey: string -> Option<Digest>)

  /** The first epoch in which the short digests take four bytes and the transaction body is salted. */
  const NEW_FORMAT_EPOCH: nat := 151

  // ---------- from votes ----------

  function Uint32Hex(n: uint32): (s: string)
  {
    HexEncode(LittleEndian(n, 4))
  }

  /** Reading a hexadecimal 32-bit number back. */
  function HexUint32(s: string): (r: Option<nat>)
  {
    match HexDecode(s)
    case Malformed => None
    case Decoded(b) => Some(FromLittleEndian(b))
  }

  lemma Uint32HexRoundTrip(n: uint32)
    ensures HexUint32(Uint32Hex(n)) == Some(n)
  {
    HexRoundTrip(LittleEndian(n, 4));
    LittleEndian32RoundTrip(n);
  }

  function StructureOf(k: Codec, v: Vote): (r: Structure)
  {
    Structure(v.epoch, v.tick, k.timestamp(v),
              Uint32Hex(v.prevResource), Uint32Hex(v.prevBody),
              HexEncode(v.prevSpectrum), HexEncode(v.prevUniverse), HexEncode(v.prevComputer), HexEncode(v.txDigest))
  }

  function DiffOf(v: Vote): (r: Diff)
  {
    Diff(Uint32Hex(v.saltedResource), Uint32Hex(v.saltedBody),
         HexEncode(v.saltedSpectrum), HexEncode(v.saltedUniverse), HexEncode(v.saltedComputer),
         HexEncode(v.expectedNextTx), HexEncode(v.signature))
  }

  function StoredDiffOf(v: Vote): (r: StoredDiff)
  {
    StoredDiff(HexEncode(v.expectedNextTx), HexEncode(v.signature))
  }

  /** The computor's index, as the key of the stored maps. */
  function Index(v: Vote): (n: uint32)
  {
    v.computorIndex
  }

  /** The vote kept for each computor: the last one in the list. */
  function Kept(votes: seq<Vote>): (r: map<uint32, Vote>)
  {
    if votes == [] then map[]
    else Kept(votes[..|votes| - 1])[Index(votes[|votes| - 1]) := votes[|votes| - 1]]
  }

  lemma {:induction false} KeptVote(votes: seq<Vote>, n: uint32) returns (i: nat)
    requires n in Kept(votes)
    ensures i < |votes| && votes[i] == Kept(votes)[n] && votes[i].computorIndex == n
  {
    i := |votes| - 1;
    if votes[i].computorIndex != n {
      i := KeptVote(votes[..i], n);
    }
  }

  /** The map with every entry replaced by a function of its key and value. */
  function MapEntries<K, V, W>(m: map<K, V>, f: (K, V) -> W): (r: map<K, W>)
    ensures r.Keys == m.Keys && forall n :: n in m ==> r[n] == f(n, m[n])
  {
    map n | n in m :: f(n, m[n])
  }

  lemma MapEntriesUpdate<K, V, W>(m: map<K, V>, f: (K, V) -> W, n: K, v: V)
    ensures MapEntries(m[n := v], f) == MapEntries(m, f)[n := f(n, v)]
  {}

  function DiffAt(n: uint32, v: Vote): (r: Diff)
  {
    DiffOf(v)
  }

  function StoredDiffAt(n: uint32, v: Vote): (r: StoredDiff)
  {
    StoredDiffOf(v)
  }

  function FullDiffs(kept: map<uint32, Vote>): (r: map<uint32, Diff>)
  {
    MapEntries<uint32, Vote, Diff>(kept, DiffAt)
  }

  function StoredDiffs(kept: map<uint32, Vote>): (r: map<uint32, StoredDiff>)
  {
    MapEntries<uint32, Vote, StoredDiff>(kept, StoredDiffAt)
  }

  function FullOf(k: Codec, votes: seq<Vote>): (r: Full)
    requires votes != []
  {
    Full(StructureOf(k, votes[0]), FullDiffs(Kept(votes)))
  }

  function StoredOf(k: Codec, votes: seq<Vote>): (r: Stored)
    requires votes != []
  {
    Stored(StructureOf(k, votes[0]), StoredDiffs(Kept(votes)))
  }

  lemma KeptSnoc(votes: seq<Vote>, v: Vote)
    ensures Kept(votes + [v]) == Kept(votes)[Index(v) := v]
    ensures FullDiffs(Kept(votes + [v])) == FullDiffs(Kept(votes))[Index(v) := DiffOf(v)]
    ensures StoredDiffs(Kept(votes + [v])) == StoredDiffs(Kept(votes))[Index(v) := StoredDiffOf(v)]
  {
    assert (votes + [v])[..|votes|] == votes;
    MapEntriesUpdate<uint32, Vote, Diff>(Kept(votes), DiffAt, Index(v), v);
    MapEntriesUpdate<uint32, Vote, StoredDiff>(Kept(votes), StoredDiffAt, Index(v), v);
  }

  method QubicToProto(k: Codec, votes: seq<Vote>) returns (r: Full)
    requires votes != []
    ensures r == FullOf(k, votes)
  {
    var diffs: map<uint32, Diff> := map[];
    for i := 0 to |votes|
      invariant diffs == FullDiffs(Kept(votes[..i]))
    {
      KeptSnoc(votes[..i], votes[i]);
      assert votes[..i + 1] == votes[..i] + [votes[i]];
      diffs := diffs[Index(votes[i]) := DiffOf(votes[i])];
    }
    assert votes[..|votes|] == votes;
    r := Full(StructureOf(k, votes[0]), diffs);
  }

  method QubicToProtoStored(k: Codec, votes: seq<Vote>) returns (r: Stored)
    requires votes != []
    ensures r == StoredOf(k, votes)
  {
    var diffs: map<uint32, StoredDiff> := map[];
    for i := 0 to |votes|
      invariant diffs == StoredDiffs(Kept(votes[..i]))
    {
      KeptSnoc(votes[..i], votes[i]);
      assert votes[..i + 1] == votes[..i] + [votes[i]];
      diffs := diffs[Index(votes[i]) := StoredDiffOf(votes[i])];
    }
    assert votes[..|votes|] == votes;
    r := Stored(StructureOf(k, votes[0]), diffs);
  }

  /** The stored structure of a vote decodes, field by field, to the vote. */
  lemma StructureDecodes(k: Codec, v: Vote)
    ensures var s := StructureOf(k, v);
            && s.epoch == v.epoch && s.tick == v.tick && s.timestamp == k.timestamp(v)
            && HexUint32(s.prevResourceHex) == Some(v.prevResource) && HexUint32(s.prevBodyHex) == Some(v.prevBody)
            && HexDecode(s.prevSpectrumHex) == Decoded(v.prevSpectrum)
            && HexDecode(s.prevUniverseHex) == Decoded(v.prevUniverse)
            && HexDecode(s.prevComputerHex) == Decoded(v.prevComputer)
            && HexDecode(s.txDigestHex) == Decoded(v.txDigest)
  {
    Uint32HexRoundTrip(v.prevResource);
    Uint32HexRoundTrip(v.prevBody);
    HexRoundTrip(v.prevSpectrum);
    HexRoundTrip(v.prevUniverse);
    HexRoundTrip(v.prevComputer);
    HexRoundTrip(v.txDigest);
  }

  /** And so does its diff. */
  predicate DiffDecodes(d: Diff, v: Vote)
  {
    && HexUint32(d.saltedResourceHex) == Some(v.saltedResource) && HexUint32(d.saltedBodyHex) == Some(v.saltedBody)
    && HexDecode(d.saltedSpectrumHex) == Decoded(v.saltedSpectrum)
    && HexDecode(d.saltedUniverseHex) == Decoded(v.saltedUniverse)
    && HexDecode(d.saltedComputerHex) == Decoded(v.saltedComputer)
    && HexDecode(d.expectedNextTxHex) == Decoded(v.expectedNextTx)
    && HexDecode(d.signatureHex) == Decoded(v.signature)
  }

  lemma DiffOfDecodes(v: Vote)
    ensures DiffDecodes(DiffOf(v), v)
    ensures HexDecode(StoredDiffOf(v).expectedNextTxHex) == Decoded(v.expectedNextTx)
    ensures HexDecode(StoredDiffOf(v).signatureHex) == Decoded(v.signature)
  {
    Uint32HexRoundTrip(v.saltedResource);
    Uint32HexRoundTrip(v.saltedBody);
    HexRoundTrip(v.saltedSpectrum);
    HexRoundTrip(v.saltedUniverse);
    HexRoundTrip(v.saltedComputer);
    HexRoundTrip(v.expectedNextTx);
    HexRoundTrip(v.signature);
  }

  /** The position of the last vote of a computor. */
  predicate LastVoteAt(votes: seq<Vote>, n: uint32, i: nat)
  {
    i < |votes| && votes[i].computorIndex == n && forall j :: i < j < |votes| ==> votes[j].computorIndex != n
  }

  lemma {:induction false} KeptIsLast(votes: seq<Vote>, n: uint32) returns (i: nat)
    ensures n in Kept(votes) ==> LastVoteAt(votes, n, i) && Kept(votes)[n] == votes[i]
    ensures n !in Kept(votes) ==> forall j :: 0 <= j < |votes| ==> votes[j].computorIndex != n
  {
    i := 0;
    if votes != [] {
      var init := votes[..|votes| - 1];
      i := KeptIsLast(init, n);
      if votes[|votes| - 1].computorIndex == n {
        i := |votes| - 1;
      }
    }
  }

  /** The full form of a tick's votes: its structure is that of the first vote, and it has a diff for exactly
      the computors that voted, which decodes to the last vote of the computor. */
  lemma FullDecodes(k: Codec, votes: seq<Vote>, n: uint32) returns (i: nat)
    requires votes != []
    ensures FullOf(k, votes).structure == StructureOf(k, votes[0])
    ensures n in FullOf(k, votes).diffs ==>
              LastVoteAt(votes, n, i) && DiffDecodes(FullOf(k, votes).diffs[n], votes[i])
    ensures n !in FullOf(k, votes).diffs ==> forall j :: 0 <= j < |votes| ==> votes[j].computorIndex != n
  {
    i := KeptIsLast(votes, n);
    if n in Kept(votes) {
      StoredAt(Kept(votes), n);
      DiffOfDecodes(votes[i]);
    }
  }

  // ---------- reconstruction ----------

  /** `copy(buf[at:], data)`. */
  function CopyInto(buf: bytes, at: nat, data: bytes): (r: bytes)
    requires at <= |buf|
    ensures |r| == |buf|
  {
    var n := if |data| < |buf| - at then |data| else |buf| - at;
    buf[..at] + data[..n] + buf[at + n..]
  }

  function Zeros(n: nat): (r: bytes)
    ensures |r| == n
  {
    seq(n, _ => 0)
  }

  function ShortSaltedDigest(k: Codec, pubKey: Digest, prev: bytes, newFormat: bool): (d: Digest)
  {
    var buf := CopyInto(CopyInto(Zeros(40), 0, pubKey), 32, prev);
    k.hash(if newFormat then buf[..36] else buf)
  }

  /** The next tick's previous digests, decoded. */
  datatype Previous = Previous(spectrum: bytes, universe: bytes, computer: bytes, resource: bytes, body: bytes)

  function DecodePrevious(s: Structure): (r: Option<Previous>)
  {
    var sp, un, co, re, bo :=
      HexDecode(s.prevSpectrumHex), HexDecode(s.prevUniverseHex), HexDecode(s.prevComputerHex),
      HexDecode(s.prevResourceHex), HexDecode(s.prevBodyHex);
    if sp.Decoded? && un.Decoded? && co.Decoded? && re.Decoded? && bo.Decoded?
    then Some(Previous(sp.value, un.value, co.value, re.value, bo.value))
    else None
  }

  /** One computor's diff. The 64-byte buffer is reused for the three long digests. */
  function RebuiltDiff(k: Codec, epoch: uint32, pubKey: Digest, p: Previous, d: StoredDiff): (r: Diff)
  {
    var tmp := CopyInto(Zeros(64), 0, pubKey);
    var tmp1 := CopyInto(tmp, 32, p.spectrum);
    var tmp2 := CopyInto(tmp1, 32, p.universe);
    var tmp3 := CopyInto(tmp2, 32, p.computer);
    var newFormat := epoch >= NEW_FORMAT_EPOCH;
    var size := if newFormat then 4 else 8;
    Diff(HexEncode(ShortSaltedDigest(k, pubKey, p.resource, newFormat)[..size]),
         if newFormat then HexEncode(ShortSaltedDigest(k, pubKey, p.body, true)[..size]) else "",
         HexEncode(k.hash(tmp1)), HexEncode(k.hash(tmp2)), HexEncode(k.hash(tmp3)),
         d.expectedNextTxHex, d.signatureHex)
  }

  predicate KnownComputors(current: Stored, identities: seq<string>)
  {
    forall n :: n in current.diffs ==> n < |identities|
  }

  /** The keys of the voting computors, if all of them can be read. */
  predicate KeysReadable(k: Codec, ns: set<uint32>, identities: seq<string>)
  {
    forall n :: n in ns ==> n < |identities| && k.toPubKey(identities[n]).Some?
  }

  /** The key of a computor; its value is of no account where no key can be read. */
  function PubKey(k: Codec, identities: seq<string>, n: uint32): (d: Digest)
  {
    if n < |identities| && k.toPubKey(identities[n]).Some? then k.toPubKey(identities[n]).value else k.hash([])
  }

  /** The reconstruction of one computor's diff, as a function of its index and stored diff. */
  function Rebuilder(k: Codec, epoch: uint32, p: Previous, identities: seq<string>): (f: (uint32, StoredDiff) -> Diff)
  {
    (n: uint32, d: StoredDiff) => RebuiltDiff(k, epoch, PubKey(k, identities, n), p, d)
  }

  function RebuiltDiffs(k: Codec, epoch: uint32, p: Previous, diffs: map<uint32, StoredDiff>, identities: seq<string>)
    : (r: map<uint32, Diff>)
  {
    MapEntries<uint32, StoredDiff, Diff>(diffs, Rebuilder(k, epoch, p, identities))
  }

  /** The rebuilt form, or nothing if a digest or an identity cannot be decoded. */
  function Rebuilt(k: Codec, current: Stored, next: Stored, identities: seq<string>): (r: Option<Full>)
    requires KnownComputors(current, identities)
  {
    match DecodePrevious(next.structure)
    case None => None
    case Some(p) =>
      if !KeysReadable(k, current.diffs.Keys, identities) then None
      else Some(Full(current.structure, RebuiltDiffs(k, current.structure.epoch, p, current.diffs, identities)))
  }

  /** Computors are visited in the arbitrary order of a hash map; the result does not depend on it. */
  method ReconstructQuorumData(k: Codec, current: Stored, next: Stored, identities: seq<string>)
    returns (r: Option<Full>)
    requires KnownComputors(current, identities)
    ensures r == Rebuilt(k, current, next, identities)
  {
    var previous := DecodePrevious(next.structure);
    if previous.None? {
      return None;
    }
    var diffs := RebuildDiffs(k, current.diffs, identities,
                              Rebuilder(k, current.structure.epoch, previous.value, identities));
    if diffs.None? {
      return None;
    }
    r := Some(Full(current.structure, diffs.value));
  }

  method RebuildDiffs(k: Codec, stored: map<uint32, StoredDiff>, identities: seq<string>,
                      rebuild: (uint32, StoredDiff) -> Diff)
    returns (r: Option<map<uint32, Diff>>)
    requires forall n :: n in stored ==> n < |identities|
    ensures r == if KeysReadable(k, stored.Keys, identities)
            then Some(MapEntries<uint32, StoredDiff, Diff>(stored, rebuild)) else None
  {
    var diffs: map<uint32, Diff> := map[];
    var rest := stored.Keys;
    while rest != {}
      invariant rest <= stored.Keys
      invariant diffs.Keys == stored.Keys - rest
      invariant KeysReadable(k, diffs.Keys, identities)
      invariant forall n :: n in diffs ==> diffs[n] == rebuild(n, stored[n])
      decreases |rest|
    {
      var n :| n in rest;
      rest := rest - {n};
      if k.toPubKey(identities[n]).None? {
        return None;
      }
      diffs := diffs[n := rebuild(n, stored[n])];
    }
    assert diffs == MapEntries<uint32, StoredDiff, Diff>(stored, rebuild);
    r := Some(diffs);
  }

  // ---------- the round trip ----------

  /** The salted digests of a vote are those of its computor's key with the digests that the next
      tick's votes report as previous. */
  predicate SaltsMatch(k: Codec, pubKey: Digest, v: Vote, next: Vote)
  {
    && v.saltedSpectrum == k.hash(pubKey + next.prevSpectrum)
    && v.saltedUniverse == k.hash(pubKey + next.prevUniverse)
    && v.saltedComputer == k.hash(pubKey + next.prevComputer)
    && LittleEndian(v.saltedResource, 4) == k.hash(pubKey + LittleEndian(next.prevResource, 4))[..4]
    && LittleEndian(v.saltedBody, 4) == k.hash(pubKey + LittleEndian(next.prevBody, 4))[..4]
  }

  lemma PreviousOf(k: Codec, v: Vote)
    ensures DecodePrevious(StructureOf(k, v)) == Some(PreviousIn(v))
  {
    HexRoundTrip(v.prevSpectrum);
    HexRoundTrip(v.prevUniverse);
    HexRoundTrip(v.prevComputer);
    HexRoundTrip(LittleEndian(v.prevResource, 4));
    HexRoundTrip(LittleEndian(v.prevBody, 4));
  }

  lemma LongBuffer(pubKey: Digest, buf: bytes, digest: Digest)
    requires |buf| == 64 && buf[..32] == pubKey
    ensures CopyInto(buf, 32, digest) == pubKey + digest
  {}

  lemma ShortBuffer(k: Codec, pubKey: Digest, prev: bytes)
    requires |prev| == 4
    ensures ShortSaltedDigest(k, pubKey, prev, true) == k.hash(pubKey + prev)
  {
    var buf := CopyInto(Zeros(40), 0, pubKey);
    assert CopyInto(buf, 32, prev)[..36] == pubKey + prev;
  }

  /** Rebuilding one computor's diff gives the full diff of the vote exactly if the epoch uses the new
      format and the salts match. */
  lemma DiffRoundTrip(k: Codec, epoch: uint16, pubKey: Digest, v: Vote, next: Vote)
    ensures RebuiltDiff(k, epoch, pubKey, PreviousIn(next), StoredDiffOf(v)) == DiffOf(v)
            <==> epoch >= 151 && SaltsMatch(k, pubKey, v, next)
  {
    var r := RebuiltDiff(k, epoch, pubKey, PreviousIn(next), StoredDiffOf(v));
    if epoch < NEW_FORMAT_EPOCH {
      assert |r.saltedBodyHex| == 0 && |DiffOf(v).saltedBodyHex| == 8;
    } else {
      var tmp := CopyInto(Zeros(64), 0, pubKey);
      assert tmp[..32] == pubKey;
      LongBuffer(pubKey, tmp, next.prevSpectrum);
      LongBuffer(pubKey, pubKey + next.prevSpectrum, next.prevUniverse);
      LongBuffer(pubKey, pubKey + next.prevUniverse, next.prevComputer);
      ShortBuffer(k, pubKey, LittleEndian(next.prevResource, 4));
      ShortBuffer(k, pubKey, LittleEndian(next.prevBody, 4));
      HexesAgree(k.hash(pubKey + next.prevSpectrum), v.saltedSpectrum);
      HexesAgree(k.hash(pubKey + next.prevUniverse), v.saltedUniverse);
      HexesAgree(k.hash(pubKey + next.prevComputer), v.saltedComputer);
      HexesAgree(k.hash(pubKey + LittleEndian(next.prevResource, 4))[..4], LittleEndian(v.saltedResource, 4));
      HexesAgree(k.hash(pubKey + LittleEndian(next.prevBody, 4))[..4], LittleEndian(v.saltedBody, 4));
    }
  }

  /** Before epoch 151 the resource digest is padded to eight bytes and salted as such, eight bytes of the hash
      are given, and there is no salted body. */
  lemma OldFormat(k: Codec, epoch: uint16, pubKey: Digest, p: Previous, d: StoredDiff)
    requires epoch < 151 && |p.resource| == 4 && |p.spectrum| == |p.universe| == |p.computer| == 32
    ensures var r := RebuiltDiff(k, epoch, pubKey, p, d);
            && r.saltedResourceHex == HexEncode(k.hash(pubKey + p.resource + [0, 0, 0, 0])[..8])
            && r.saltedBodyHex == "" && r.saltedSpectrumHex == HexEncode(k.hash(pubKey + p.spectrum))
            && r.saltedUniverseHex == HexEncode(k.hash(pubKey + p.universe))
            && r.saltedComputerHex == HexEncode(k.hash(pubKey + p.computer))
            && r.expectedNextTxHex == d.expectedNextTxHex && r.signatureHex == d.signatureHex
  {
    var tmp := CopyInto(Zeros(64), 0, pubKey);
    assert tmp[..32] == pubKey;
    LongBuffer(pubKey, tmp, p.spectrum);
    LongBuffer(pubKey, pubKey + p.spectrum, p.universe);
    LongBuffer(pubKey, pubKey + p.universe, p.computer);
    assert CopyInto(CopyInto(Zeros(40), 0, pubKey), 32, p.resource) == pubKey + p.resource + [0, 0, 0, 0];
  }

  /** Rebuilding fails exactly if one of the next tick's five previous digests or a voting computor's key
      cannot be read. */
  lemma RebuiltFailsIff(k: Codec, current: Stored, next: Stored, identities: seq<string>)
    requires KnownComputors(current, identities)
    ensures Rebuilt(k, current, next, identities) == None <==>
            || HexDecode(next.structure.prevSpectrumHex) == Malformed
            || HexDecode(next.structure.prevUniverseHex) == Malformed
            || HexDecode(next.structure.prevComputerHex) == Malformed
            || HexDecode(next.structure.prevResourceHex) == Malformed
            || HexDecode(next.structure.prevBodyHex) == Malformed
            || exists n :: n in current.diffs && k.toPubKey(identities[n]) == None
    ensures Rebuilt(k, current, next, identities).Some? ==>
              && Rebuilt(k, current, next, identities).value.structure == current.structure
              && Rebuilt(k, current, next, identities).value.diffs.Keys == current.diffs.Keys
  {}

  lemma HexesAgree(a: bytes, b: bytes)
    ensures HexEncode(a) == HexEncode(b) <==> a == b
  {
    if HexEncode(a) == HexEncode(b) {
      HexInjective(a, b);
    }
  }

  /** The computors' keys can be read back from the stored identity list at every voting index. */
  predicate IdentitiesMatch(k: Codec, identities: seq<string>, keys: seq<Digest>, votes: seq<Vote>)
  {
    forall i :: 0 <= i < |votes| ==>
      && votes[i].computorIndex < |identities| && votes[i].computorIndex < |keys|
      && k.toPubKey(identities[votes[i].computorIndex]) == Some(keys[votes[i].computorIndex])
  }

  lemma KeptIndices(k: Codec, identities: seq<string>, keys: seq<Digest>, votes: seq<Vote>, n: uint32)
    requires IdentitiesMatch(k, identities, keys, votes) && n in Kept(votes)
    ensures n < |identities| && n < |keys| && k.toPubKey(identities[n]) == Some(keys[n])
  {
    var i := KeptVote(votes, n);
  }

  lemma AllKeptIndices(k: Codec, identities: seq<string>, keys: seq<Digest>, votes: seq<Vote>)
    requires IdentitiesMatch(k, identities, keys, votes)
    ensures forall n :: n in Kept(votes) ==>
              n < |identities| && n < |keys| && k.toPubKey(identities[n]) == Some(keys[n])
    ensures votes != [] ==> KnownComputors(StoredOf(k, votes), identities) && Kept(votes) != map[]
  {
    forall n | n in Kept(votes)
      ensures n < |identities| && n < |keys| && k.toPubKey(identities[n]) == Some(keys[n])
    {
      KeptIndices(k, identities, keys, votes, n);
    }
    if votes != [] {
      assert Index(votes[|votes| - 1]) in Kept(votes);
    }
  }

  predicate AllSaltsMatch(k: Codec, keys: seq<Digest>, votes: seq<Vote>, next: Vote)
    requires forall n :: n in Kept(votes) ==> n < |keys|
  {
    forall n :: n in Kept(votes) ==> SaltsMatch(k, keys[n], Kept(votes)[n], next)
  }

  /** Rebuilding a tick from its own compressed votes and those of the next tick gives exactly its full
      form if and only if the epoch uses the new format and every kept vote's salts match. */
  lemma CompressionRoundTrip(k: Codec, identities: seq<string>, keys: seq<Digest>, votes: seq<Vote>, next: seq<Vote>)
    requires votes != [] && next != [] && IdentitiesMatch(k, identities, keys, votes)
    ensures KnownComputors(StoredOf(k, votes), identities)
    ensures forall n :: n in Kept(votes) ==> n < |keys|
    ensures Rebuilt(k, StoredOf(k, votes), StoredOf(k, next), identities) == Some(FullOf(k, votes))
            <==> votes[0].epoch >= 151 && AllSaltsMatch(k, keys, votes, next[0])
  {
    var kept := Kept(votes);
    AllKeptIndices(k, identities, keys, votes);
    RebuiltForm(k, identities, votes, next);
    DiffsRoundTrip(k, votes[0].epoch, identities, keys, kept, next[0], PreviousIn(next[0]));
    SameStructure(StructureOf(k, votes[0]),
                  RebuiltDiffs(k, votes[0].epoch, PreviousIn(next[0]), StoredDiffs(kept), identities), FullDiffs(kept));
  }

  lemma SameStructure(s: Structure, a: map<uint32, Diff>, b: map<uint32, Diff>)
    ensures Some(Full(s, a)) == Some(Full(s, b)) <==> a == b
  {}

  /** The digests that a vote reports as previous. */
  function PreviousIn(v: Vote): (p: Previous)
  {
    Previous(v.prevSpectrum, v.prevUniverse, v.prevComputer, LittleEndian(v.prevResource, 4),
             LittleEndian(v.prevBody, 4))
  }

  lemma RebuiltForm(k: Codec, identities: seq<string>, votes: seq<Vote>, next: seq<Vote>)
    requires votes != [] && next != [] && KnownComputors(StoredOf(k, votes), identities)
    requires KeysReadable(k, Kept(votes).Keys, identities)
    ensures Rebuilt(k, StoredOf(k, votes), StoredOf(k, next), identities)
            == Some(Full(StructureOf(k, votes[0]),
                         RebuiltDiffs(k, votes[0].epoch, PreviousIn(next[0]), StoredDiffs(Kept(votes)), identities)))
  {
    PreviousOf(k, next[0]);
  }

  lemma DiffsRoundTrip(k: Codec, epoch: uint16, identities: seq<string>, keys: seq<Digest>, kept: map<uint32, Vote>,
                       next: Vote, p: Previous)
    requires forall n :: n in kept ==> n < |identities| && n < |keys| && k.toPubKey(identities[n]) == Some(keys[n])
    requires p == PreviousIn(next)
    requires kept != map[]
    ensures RebuiltDiffs(k, epoch, p, StoredDiffs(kept), identities) == FullDiffs(kept)
            <==> epoch >= NEW_FORMAT_EPOCH && forall n :: n in kept ==> SaltsMatch(k, keys[n], kept[n], next)
  {
    var a, b := RebuiltDiffs(k, epoch, p, StoredDiffs(kept), identities), FullDiffs(kept);
    var good: map<uint32, bool> := map n: uint32 | n in kept :: SaltsMatch(k, keys[n], kept[n], next);
    forall n | n in kept ensures a[n] == b[n] <==> epoch >= NEW_FORMAT_EPOCH && good[n] {
      EntryRoundTrip(k, epoch, identities, keys, kept, next, p, n);
    }
    MapsAgree<uint32, Diff>(a, b, epoch >= NEW_FORMAT_EPOCH, good);
  }

  lemma EntryRoundTrip(k: Codec, epoch: uint16, identities: seq<string>, keys: seq<Digest>, kept: map<uint32, Vote>,
                       next: Vote, p: Previous, n: uint32)
    requires n in kept && n < |identities| && n < |keys| && k.toPubKey(identities[n]) == Some(keys[n])
    requires p == PreviousIn(next)
    ensures RebuiltDiffs(k, epoch, p, StoredDiffs(kept), identities)[n] == FullDiffs(kept)[n]
            <==> epoch >= NEW_FORMAT_EPOCH && SaltsMatch(k, keys[n], kept[n], next)
  {
    DiffRoundTrip(k, epoch, keys[n], kept[n], next);
    RebuiltAt(k, epoch, p, StoredDiffs(kept), identities, n);
    StoredAt(kept, n);
  }

  lemma RebuiltAt(k: Codec, epoch: uint32, p: Previous, diffs: map<uint32, StoredDiff>, identities: seq<string>,
                  n: uint32)
    requires n in diffs
    ensures RebuiltDiffs(k, epoch, p, diffs, identities)[n]
            == RebuiltDiff(k, epoch, PubKey(k, identities, n), p, diffs[n])
  {
    assert RebuiltDiffs(k, epoch, p, diffs, identities)[n] == Rebuilder(k, epoch, p, identities)(n, diffs[n]);
  }

  lemma StoredAt(kept: map<uint32, Vote>, n: uint32)
    requires n in kept
    ensures StoredDiffs(kept)[n] == StoredDiffOf(kept[n])
    ensures FullDiffs(kept)[n] == DiffOf(kept[n])
  {
    assert StoredDiffs(kept)[n] == StoredDiffAt(n, kept[n]);
    assert FullDiffs(kept)[n] == DiffAt(n, kept[n]);
  }

  /** Two maps over the same non-empty domain are equal exactly if all entries are. */
  lemma MapsAgree<K, W>(a: map<K, W>, b: map<K, W>, c: bool, good: map<K, bool>)
    requires a.Keys == b.Keys == good.Keys && good != map[]
    requires forall n :: n in good ==> (a[n] == b[n] <==> c && good[n])
    ensures a == b <==> c && forall n :: n in good ==> good[n]
  {
    assert a == b <==> forall n :: n in good ==> a[n] == b[n];
    var n :| n in good;
    assert a == b ==> a[n] == b[n];
  }
}
