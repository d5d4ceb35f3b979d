/** Quorum votes, and the two fixed layouts in which their contents are hashed. */
module Votes {
  import opened Bytes

  /** Second, minute, hour, day, month and year, one byte each. */
  type Clock = c: bytes | |c| == 6 witness seq(6, _ => 0)

  type Signature = s: bytes | |s| == 64 witness seq(64, _ => 0)

  datatype Vote = Vote(
    computorIndex: uint16,
    epoch: uint16,
    tick: uint32,
    millisecond: uint16,
    clock: Clock,
    prevResource: uint32,
    saltedResource: uint32,
    prevBody: uint32,
    saltedBody: uint32,
    prevSpectrum: Digest,
    prevUniverse: Digest,
    prevComputer: Digest,
    saltedSpectrum: Digest,
    saltedUniverse: Digest,
    saltedComputer: Digest,
    txDigest: Digest,
    expectedNextTx: Digest,
    signature: Signature)

  const BLANK_VOTE: Vote :=
    Vote(0, 0, 0, 0, seq(6, _ => 0), 0, 0, 0, 0, ZeroDigest(), ZeroDigest(), ZeroDigest(), ZeroDigest(), ZeroDigest(),
         ZeroDigest(), ZeroDigest(), ZeroDigest(), seq(64, _ => 0))

  /** The votes of a tick that passed validation. */
  type Ballot = vs: seq<Vote> | |vs| > 0 witness [BLANK_VOTE]

  /** What aligned votes must agree on. The previous transaction body is not part of it. */
  datatype Content = Content(
    epoch: uint16,
    tick: uint32,
    millisecond: uint16,
    clock: Clock,
    prevResource: uint32,
    prevSpectrum: Digest,
    prevUniverse: Digest,
    prevComputer: Digest,
    txDigest: Digest)

  function ContentOf(v: Vote): (c: Content)
  {
    Content(v.epoch, v.tick, v.millisecond, v.clock, v.prevResource,
            v.prevSpectrum, v.prevUniverse, v.prevComputer, v.txDigest)
  }

  /** Little-endian, field after field, as hashed to compare votes. */
  function AlignmentBytes(c: Content): (b: bytes)
  {
    Header(c.epoch, c.tick, c.millisecond, c.clock)
    + (LittleEndian(c.prevResource, 4) + Digests(c.prevSpectrum, c.prevUniverse, c.prevComputer, c.txDigest))
  }

  function Header(epoch: uint16, tick: uint32, millisecond: uint16, clock: Clock): (b: bytes)
    ensures |b| == 14
  {
    LittleEndian(epoch, 2) + (LittleEndian(tick, 4) + (LittleEndian(millisecond, 2) + clock))
  }

  function Digests(a: Digest, b: Digest, c: Digest, d: Digest): (r: bytes)
    ensures |r| == 128
  {
    a + (b + (c + d))
  }

  /** What the chain digest of a tick covers, besides the previous chain digest. */
  datatype ChainContent = ChainContent(content: Content, prevBody: uint32)

  function ChainContentOf(v: Vote): (c: ChainContent)
  {
    ChainContent(ContentOf(v), v.prevBody)
  }

  /** The chained record: two padding bytes, the content with the previous transaction body after the
      previous resource digest, and the previous chain digest. */
  function ChainBytes(c: ChainContent, prev: Digest): (b: bytes)
  {
    var k := c.content;
    [0, 0] + (Header(k.epoch, k.tick, k.millisecond, k.clock)
    + (LittleEndian(k.prevResource, 4) + (LittleEndian(c.prevBody, 4)
    + (Digests(k.prevSpectrum, k.prevUniverse, k.prevComputer, k.txDigest) + prev))))
  }

  lemma SplitAt(a: bytes, b: bytes, c: bytes, d: bytes)
    requires a + b == c + d && |a| == |c|
    ensures a == c && b == d
  {
    assert (a + b)[..|a|] == a && (c + d)[..|c|] == c;
    assert (a + b)[|a|..] == b && (c + d)[|c|..] == d;
  }

  lemma LittleEndianInjective(m: nat, n: nat, w: nat)
    requires m < Pow256(w) && n < Pow256(w) && LittleEndian(m, w) == LittleEndian(n, w)
    ensures m == n
  {
    LittleEndianRoundTrip(m, w);
    LittleEndianRoundTrip(n, w);
  }

  lemma HeaderInjective(e1: uint16, t1: uint32, m1: uint16, c1: Clock, e2: uint16, t2: uint32, m2: uint16, c2: Clock)
    requires Header(e1, t1, m1, c1) == Header(e2, t2, m2, c2)
    ensures e1 == e2 && t1 == t2 && m1 == m2 && c1 == c2
  {
    Pow256Values();
    var r1, r2 := LittleEndian(m1, 2) + c1, LittleEndian(m2, 2) + c2;
    SplitAt(LittleEndian(e1, 2), LittleEndian(t1, 4) + r1, LittleEndian(e2, 2), LittleEndian(t2, 4) + r2);
    SplitAt(LittleEndian(t1, 4), r1, LittleEndian(t2, 4), r2);
    SplitAt(LittleEndian(m1, 2), c1, LittleEndian(m2, 2), c2);
    LittleEndianInjective(e1, e2, 2);
    LittleEndianInjective(t1, t2, 4);
    LittleEndianInjective(m1, m2, 2);
  }

  lemma DigestsInjective(a1: Digest, b1: Digest, c1: Digest, d1: Digest, a2: Digest, b2: Digest, c2: Digest, d2: Digest)
    requires Digests(a1, b1, c1, d1) == Digests(a2, b2, c2, d2)
    ensures a1 == a2 && b1 == b2 && c1 == c2 && d1 == d2
  {
    SplitAt(a1, b1 + (c1 + d1), a2, b2 + (c2 + d2));
    SplitAt(b1, c1 + d1, b2, c2 + d2);
    SplitAt(c1, d1, c2, d2);
  }

  /** The compared layout determines the content. */
  lemma AlignmentBytesInjective(a: Content, b: Content)
    requires AlignmentBytes(a) == AlignmentBytes(b)
    ensures a == b
  {
    Pow256Values();
    var h1, h2 := Header(a.epoch, a.tick, a.millisecond, a.clock), Header(b.epoch, b.tick, b.millisecond, b.clock);
    var d1 := Digests(a.prevSpectrum, a.prevUniverse, a.prevComputer, a.txDigest);
    var d2 := Digests(b.prevSpectrum, b.prevUniverse, b.prevComputer, b.txDigest);
    SplitAt(h1, LittleEndian(a.prevResource, 4) + d1, h2, LittleEndian(b.prevResource, 4) + d2);
    SplitAt(LittleEndian(a.prevResource, 4), d1, LittleEndian(b.prevResource, 4), d2);
    HeaderInjective(a.epoch, a.tick, a.millisecond, a.clock, b.epoch, b.tick, b.millisecond, b.clock);
    LittleEndianInjective(a.prevResource, b.prevResource, 4);
    DigestsInjective(a.prevSpectrum, a.prevUniverse, a.prevComputer, a.txDigest,
                     b.prevSpectrum, b.prevUniverse, b.prevComputer, b.txDigest);
  }

  /** The chained layout determines the content and the previous digest. */
  lemma ChainBytesInjective(a: ChainContent, p: Digest, b: ChainContent, q: Digest)
    requires ChainBytes(a, p) == ChainBytes(b, q)
    ensures a == b && p == q
  {
    Pow256Values();
    var k, l := a.content, b.content;
    var h1, h2 := Header(k.epoch, k.tick, k.millisecond, k.clock), Header(l.epoch, l.tick, l.millisecond, l.clock);
    var d1 := Digests(k.prevSpectrum, k.prevUniverse, k.prevComputer, k.txDigest);
    var d2 := Digests(l.prevSpectrum, l.prevUniverse, l.prevComputer, l.txDigest);
    var r1, r2 := LittleEndian(k.prevResource, 4), LittleEndian(l.prevResource, 4);
    var b1, b2 := LittleEndian(a.prevBody, 4), LittleEndian(b.prevBody, 4);
    SplitAt([0, 0], h1 + (r1 + (b1 + (d1 + p))), [0, 0], h2 + (r2 + (b2 + (d2 + q))));
    SplitAt(h1, r1 + (b1 + (d1 + p)), h2, r2 + (b2 + (d2 + q)));
    SplitAt(r1, b1 + (d1 + p), r2, b2 + (d2 + q));
    SplitAt(b1, d1 + p, b2, d2 + q);
    SplitAt(d1, p, d2, q);
    HeaderInjective(k.epoch, k.tick, k.millisecond, k.clock, l.epoch, l.tick, l.millisecond, l.clock);
    LittleEndianInjective(k.prevResource, l.prevResource, 4);
    LittleEndianInjective(a.prevBody, b.prevBody, 4);
    DigestsInjective(k.prevSpectrum, k.prevUniverse, k.prevComputer, k.txDigest,
                     l.prevSpectrum, l.prevUniverse, l.prevComputer, l.txDigest);
  }

  // ---------- where the fields are ----------

  /** The field takes the bytes from one position up to another. */
  predicate Spans(b: bytes, from: nat, to: nat, field: bytes)
  {
    from <= to <= |b| && b[from..to] == field
  }

  /** Skipping a first part shifts the positions of what follows. */
  lemma SpansLater(a: bytes, b: bytes, from: nat, to: nat, field: bytes)
    requires Spans(b, from, to, field)
    ensures Spans(a + b, |a| + from, |a| + to, field)
  {
    assert (a + b)[|a| + from..|a| + to] == b[from..to];
  }

  lemma SpansFirst(a: bytes, b: bytes)
    ensures Spans(a + b, 0, |a|, a)
  {}

  lemma SpansEarlier(a: bytes, b: bytes, from: nat, to: nat, field: bytes)
    requires Spans(a, from, to, field)
    ensures Spans(a + b, from, to, field)
  {
    assert (a + b)[from..to] == a[from..to];
  }

  lemma HeaderLayout(epoch: uint16, tick: uint32, millisecond: uint16, clock: Clock)
    ensures var b := Header(epoch, tick, millisecond, clock);
            && Spans(b, 0, 2, LittleEndian(epoch, 2)) && Spans(b, 2, 6, LittleEndian(tick, 4))
            && Spans(b, 6, 8, LittleEndian(millisecond, 2)) && Spans(b, 8, 14, clock)
  {
    var e, t, m := LittleEndian(epoch, 2), LittleEndian(tick, 4), LittleEndian(millisecond, 2);
    SpansFirst(e, t + (m + clock));
    SpansFirst(t, m + clock);
    SpansLater(e, t + (m + clock), 0, 4, t);
    SpansFirst(m, clock);
    SpansLater(t, m + clock, 0, 2, m);
    SpansLater(e, t + (m + clock), 4, 6, m);
    SpansLater(m, clock, 0, 6, clock);
    SpansLater(t, m + clock, 2, 8, clock);
    SpansLater(e, t + (m + clock), 6, 12, clock);
  }

  lemma DigestsLayout(a: Digest, b: Digest, c: Digest, d: Digest)
    ensures var r := Digests(a, b, c, d);
            Spans(r, 0, 32, a) && Spans(r, 32, 64, b) && Spans(r, 64, 96, c) && Spans(r, 96, 128, d)
  {
    SpansFirst(a, b + (c + d));
    SpansFirst(b, c + d);
    SpansLater(a, b + (c + d), 0, 32, b);
    SpansFirst(c, d);
    SpansLater(b, c + d, 0, 32, c);
    SpansLater(a, b + (c + d), 32, 64, c);
    SpansLater(c, d, 0, 32, d);
    SpansLater(b, c + d, 32, 64, d);
    SpansLater(a, b + (c + d), 64, 96, d);
  }

  /** The compared record of a vote, field by field. */
  lemma AlignmentLayout(v: Vote)
    ensures var b := AlignmentBytes(ContentOf(v));
            && |b| == 146
            && Spans(b, 0, 2, LittleEndian(v.epoch, 2)) && Spans(b, 2, 6, LittleEndian(v.tick, 4))
            && Spans(b, 6, 8, LittleEndian(v.millisecond, 2)) && Spans(b, 8, 14, v.clock)
            && Spans(b, 14, 18, LittleEndian(v.prevResource, 4))
            && Spans(b, 18, 50, v.prevSpectrum) && Spans(b, 50, 82, v.prevUniverse)
            && Spans(b, 82, 114, v.prevComputer) && Spans(b, 114, 146, v.txDigest)
  {
    var h, r := Header(v.epoch, v.tick, v.millisecond, v.clock), LittleEndian(v.prevResource, 4);
    var d := Digests(v.prevSpectrum, v.prevUniverse, v.prevComputer, v.txDigest);
    HeaderLayout(v.epoch, v.tick, v.millisecond, v.clock);
    DigestsLayout(v.prevSpectrum, v.prevUniverse, v.prevComputer, v.txDigest);
    HeaderThen(h, r + d, v);
    SpansFirst(r, d);
    SpansLater(h, r + d, 0, 4, r);
    DigestsAfter(r, d, [], v);
    assert d + [] == d;
    DigestsWithin(h, r + d, 4, v);
  }

  /** The fields of the header, at the front of a record. */
  lemma HeaderThen(h: bytes, rest: bytes, v: Vote)
    requires && Spans(h, 0, 2, LittleEndian(v.epoch, 2)) && Spans(h, 2, 6, LittleEndian(v.tick, 4))
             && Spans(h, 6, 8, LittleEndian(v.millisecond, 2)) && Spans(h, 8, 14, v.clock)
    ensures var b := h + rest;
            && Spans(b, 0, 2, LittleEndian(v.epoch, 2)) && Spans(b, 2, 6, LittleEndian(v.tick, 4))
            && Spans(b, 6, 8, LittleEndian(v.millisecond, 2)) && Spans(b, 8, 14, v.clock)
  {
    SpansEarlier(h, rest, 0, 2, LittleEndian(v.epoch, 2));
    SpansEarlier(h, rest, 2, 6, LittleEndian(v.tick, 4));
    SpansEarlier(h, rest, 6, 8, LittleEndian(v.millisecond, 2));
    SpansEarlier(h, rest, 8, 14, v.clock);
  }

  /** The four digests of a vote, one after the other from a position. */
  predicate SpansDigests(b: bytes, at: nat, v: Vote)
  {
    && Spans(b, at, at + 32, v.prevSpectrum) && Spans(b, at + 32, at + 64, v.prevUniverse)
    && Spans(b, at + 64, at + 96, v.prevComputer) && Spans(b, at + 96, at + 128, v.txDigest)
  }

  lemma DigestsAfter(r: bytes, d: bytes, rest: bytes, v: Vote)
    requires SpansDigests(d, 0, v)
    ensures SpansDigests(r + (d + rest), |r|, v)
  {
    SpansEarlier(d, rest, 0, 32, v.prevSpectrum);
    SpansEarlier(d, rest, 32, 64, v.prevUniverse);
    SpansEarlier(d, rest, 64, 96, v.prevComputer);
    SpansEarlier(d, rest, 96, 128, v.txDigest);
    DigestsWithin(r, d + rest, 0, v);
  }

  lemma DigestsWithin(a: bytes, b: bytes, at: nat, v: Vote)
    requires SpansDigests(b, at, v)
    ensures SpansDigests(a + b, |a| + at, v)
  {
    SpansLater(a, b, at, at + 32, v.prevSpectrum);
    SpansLater(a, b, at + 32, at + 64, v.prevUniverse);
    SpansLater(a, b, at + 64, at + 96, v.prevComputer);
    SpansLater(a, b, at + 96, at + 128, v.txDigest);
  }

  /** The chained record of a vote, field by field: two bytes of padding, the fields, the previous digest. */
  lemma ChainLayout(v: Vote, prev: Digest)
    ensures var b := ChainBytes(ChainContentOf(v), prev);
            && |b| == 184 && Spans(b, 0, 2, [0, 0])
            && Spans(b, 2, 4, LittleEndian(v.epoch, 2)) && Spans(b, 4, 8, LittleEndian(v.tick, 4))
            && Spans(b, 8, 10, LittleEndian(v.millisecond, 2)) && Spans(b, 10, 16, v.clock)
            && Spans(b, 16, 20, LittleEndian(v.prevResource, 4)) && Spans(b, 20, 24, LittleEndian(v.prevBody, 4))
            && Spans(b, 24, 56, v.prevSpectrum) && Spans(b, 56, 88, v.prevUniverse)
            && Spans(b, 88, 120, v.prevComputer) && Spans(b, 120, 152, v.txDigest) && Spans(b, 152, 184, prev)
  {
    var h := Header(v.epoch, v.tick, v.millisecond, v.clock);
    var r, o := LittleEndian(v.prevResource, 4), LittleEndian(v.prevBody, 4);
    var d := Digests(v.prevSpectrum, v.prevUniverse, v.prevComputer, v.txDigest);
    var after := r + (o + (d + prev));
    HeaderLayout(v.epoch, v.tick, v.millisecond, v.clock);
    DigestsLayout(v.prevSpectrum, v.prevUniverse, v.prevComputer, v.txDigest);
    ShortFields(r, o, d + prev);
    DigestsAfter(o, d, prev, v);
    DigestsWithin(r, o + (d + prev), 4, v);
    SpansLater(d, prev, 0, 32, prev);
    SpansLater(o, d + prev, 128, 160, prev);
    SpansLater(r, o + (d + prev), 132, 164, prev);
    HeaderThen(h, after, v);
    ChainFields(h, after, v, prev);
  }

  lemma ShortFields(r: bytes, o: bytes, rest: bytes)
    requires |r| == 4 && |o| == 4
    ensures Spans(r + (o + rest), 0, 4, r) && Spans(r + (o + rest), 4, 8, o)
  {
    SpansFirst(r, o + rest);
    SpansFirst(o, rest);
    SpansLater(r, o + rest, 0, 4, o);
  }

  /** Everything moves behind the padding. */
  lemma ChainFields(h: bytes, after: bytes, v: Vote, prev: Digest)
    requires |h| == 14 && |after| == 168
    requires && Spans(h + after, 0, 2, LittleEndian(v.epoch, 2)) && Spans(h + after, 2, 6, LittleEndian(v.tick, 4))
             && Spans(h + after, 6, 8, LittleEndian(v.millisecond, 2)) && Spans(h + after, 8, 14, v.clock)
    requires && Spans(after, 0, 4, LittleEndian(v.prevResource, 4)) && Spans(after, 4, 8, LittleEndian(v.prevBody, 4))
             && SpansDigests(after, 8, v) && Spans(after, 136, 168, prev)
    ensures var b := [0, 0] + (h + after);
            && |b| == 184 && Spans(b, 0, 2, [0, 0])
            && Spans(b, 2, 4, LittleEndian(v.epoch, 2)) && Spans(b, 4, 8, LittleEndian(v.tick, 4))
            && Spans(b, 8, 10, LittleEndian(v.millisecond, 2)) && Spans(b, 10, 16, v.clock)
            && Spans(b, 16, 20, LittleEndian(v.prevResource, 4)) && Spans(b, 20, 24, LittleEndian(v.prevBody, 4))
            && SpansDigests(b, 24, v) && Spans(b, 152, 184, prev)
  {
    SpansFirst([0, 0], h + after);
    SpansLater([0, 0], h + after, 0, 2, LittleEndian(v.epoch, 2));
    SpansLater([0, 0], h + after, 2, 6, LittleEndian(v.tick, 4));
    SpansLater([0, 0], h + after, 6, 8, LittleEndian(v.millisecond, 2));
    SpansLater([0, 0], h + after, 8, 14, v.clock);
    SpansLater(h, after, 0, 4, LittleEndian(v.prevResource, 4));
    SpansLater([0, 0], h + after, 14, 18, LittleEndian(v.prevResource, 4));
    SpansLater(h, after, 4, 8, LittleEndian(v.prevBody, 4));
    SpansLater([0, 0], h + after, 18, 22, LittleEndian(v.prevBody, 4));
    DigestsWithin(h, after, 8, v);
    DigestsWithin([0, 0], h + after, 22, v);
    SpansLater(h, after, 136, 168, prev);
    SpansLater([0, 0], h + after, 150, 182, prev);
  }
}
