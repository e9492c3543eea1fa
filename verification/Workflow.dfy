/** The authority side: deterministic epochs, co-signing, and merging partial signatures. */
module Workflow {
  import opened Prelude
  import opened Text
  import opened Library
  import D = Descriptors
  import opened Consensuses
  import opened ConsensusLaws
  import opened ConsensusRoundTrip

  predicate EpochSettings(epoch: int, lifetime: int) {
    epoch >= SECOND && epoch % SECOND == 0 && lifetime > epoch && lifetime % SECOND == 0
  }

  function EpochStart(now: int, epoch: int): int
    requires epoch > 0
  {
    now - now % epoch
  }

  /** This epoch's canonical candidate, its body frozen. */
  function NewEpochConsensus(lib: Library, relays: seq<D.Descriptor>, now: int, epoch: int, lifetime: int): (r: Option<Consensus>)
    ensures r.Some? ==> r.value.raw == Some(Body(lib, r.value)) && Validate(lib, r.value)
  {
    if !EpochSettings(epoch, lifetime) then None
    else
      var start := EpochStart(now, epoch);
      var c := Consensus(start, start + lifetime, relays, map[], None);
      if Validate(lib, c) then
        assert Body(lib, c.(raw := Some(Body(lib, c)))) == Body(lib, c);
        Some(c.(raw := Some(Body(lib, c))))
      else None
  }

  // ---- the same descriptors in any order

  lemma IdentitiesPermute(xs: seq<D.Descriptor>, ys: seq<D.Descriptor>)
    requires multiset(xs) == multiset(ys) && DistinctIdentities(xs)
    ensures DistinctIdentities(ys)
  {
    forall i, j | 0 <= i < j < |ys| ensures ys[i].identity != ys[j].identity {
      assert ys[i] in multiset(xs) && ys[j] in multiset(xs);
      if ys[i] == ys[j] {
        Twice(ys, ys[i]);
        Twice(xs, ys[i]);
      }
      var a :| 0 <= a < |xs| && xs[a] == ys[i];
      var b :| 0 <= b < |xs| && xs[b] == ys[j];
    }
  }

  lemma EncodedConcat(a: seq<D.Descriptor>, b: seq<D.Descriptor>)
    ensures EncodedAll(a + b) == EncodedAll(a) + EncodedAll(b)
  {
    hide D.Encoded;
  }

  lemma PullFront<T>(s: seq<T>, k: nat)
    requires k < |s|
    ensures s == s[..k] + ([s[k]] + s[k + 1..])
    ensures multiset(s) == multiset{s[k]} + multiset(s[..k] + s[k + 1..])
  {
    assert s == s[..k] + ([s[k]] + s[k + 1..]);
  }

  lemma RestPermutes<T>(xs: seq<T>, ys: seq<T>, k: nat)
    requires multiset(xs) == multiset(ys) && xs != [] && k < |ys| && ys[k] == xs[0]
    ensures multiset(xs[1..]) == multiset(ys[..k] + ys[k + 1..])
  {
    PullFront(xs, 0);
    PullFront(ys, k);
    assert xs[..0] + xs[1..] == xs[1..];
    assert multiset(xs[1..]) == multiset(xs) - multiset{xs[0]};
  }

  /** Taking one descriptor out of a list takes exactly its encoding out. */
  lemma EncodedSplit(before: seq<D.Descriptor>, x: D.Descriptor, after: seq<D.Descriptor>)
    ensures multiset(EncodedAll(before + ([x] + after))) == multiset(EncodedAll([x])) + multiset(EncodedAll(before + after))
  {
    hide EncodedAll;
    EncodedConcat(before, [x] + after);
    EncodedConcat([x], after);
    EncodedConcat(before, after);
  }

  lemma {:induction false} EncodedPermute(xs: seq<D.Descriptor>, ys: seq<D.Descriptor>)
    requires multiset(xs) == multiset(ys)
    ensures multiset(EncodedAll(xs)) == multiset(EncodedAll(ys))
    decreases |xs|
  {
    hide D.Encoded, EncodedAll;
    if xs == [] {
      assert |multiset(ys)| == |ys|;
    } else {
      assert xs[0] in multiset(ys);
      var k :| 0 <= k < |ys| && ys[k] == xs[0];
      var x, before, after := xs[0], ys[..k], ys[k + 1..];
      RestPermutes(xs, ys, k);
      EncodedPermute(xs[1..], before + after);
      EncodedSplit([], x, xs[1..]);
      EncodedSplit(before, x, after);
      PullFront(ys, k);
      assert xs == [] + ([x] + xs[1..]) && [] + xs[1..] == xs[1..];
    }
  }

  lemma ValidatePermute(lib: Library, a: Consensus, b: Consensus)
    requires a.validAfter == b.validAfter && a.validUntil == b.validUntil && multiset(a.relays) == multiset(b.relays)
    requires Validate(lib, a)
    ensures Validate(lib, b) && Body(lib, a) == Body(lib, b)
  {
    hide D.Encoded, D.Validate, D.ValidThroughout, EncodedAll;
    IdentitiesPermute(a.relays, b.relays);
    forall d | d in b.relays ensures d in a.relays {
      assert d in multiset(a.relays);
    }
    EncodedPermute(a.relays, b.relays);
    SortPermutation(EncodedAll(a.relays), EncodedAll(b.relays));
  }

  /**
   * Independent authorities agree without talking: the same descriptors in any order, clocks anywhere inside one epoch,
   * give byte-identical bodies, or are refused alike.
   */
  lemma CanonicalAcrossAuthorities(lib: Library, xs: seq<D.Descriptor>, ys: seq<D.Descriptor>, now1: int, now2: int,
                                   epoch: int, lifetime: int)
    requires multiset(xs) == multiset(ys) && epoch > 0 && now1 / epoch == now2 / epoch
    ensures var (a, b) := (NewEpochConsensus(lib, xs, now1, epoch, lifetime), NewEpochConsensus(lib, ys, now2, epoch, lifetime));
            (a.Some? <==> b.Some?) && (a.Some? ==> a.value.raw == b.value.raw)
  {
    var start := EpochStart(now1, epoch);
    assert start == EpochStart(now2, epoch);
    var a, b := Consensus(start, start + lifetime, xs, map[], None), Consensus(start, start + lifetime, ys, map[], None);
    hide Validate, Body;
    if Validate(lib, a) {
      ValidatePermute(lib, a, b);
    }
    if Validate(lib, b) {
      ValidatePermute(lib, b, a);
    }
  }

  // ---- partial documents

  /** Every signature on a partial must be good for the key its line names. */
  function ParsePartial(lib: Library, text: string, now: int): (r: Option<Consensus>)
    ensures r.Some? ==> r.value.raw.Some?
  {
    match SplitSignatures(text)
    case None => None
    case Some((body, sigs)) =>
      if exists fp :: fp in sigs && !CanonicalKey(lib, fp) then None
      else
        var named := map fp | fp in sigs && lib.DecodeKey(fp).Some? :: lib.DecodeKey(fp).value;
        Parse(lib, text, named, |named|, now)
  }

  lemma PartialIsAccepted(lib: Library, text: string, now: int)
    requires ParsePartial(lib, text, now).Some?
    ensures ParseBody(lib, text, now) == ParsePartial(lib, text, now)
    ensures var c := ParsePartial(lib, text, now).value;
            forall fp :: fp in c.signatures ==> SignatureChecks(lib, c.raw.value, fp, c.signatures[fp])
  {
    hide SplitSignatures, ReadBody, Validate, Body, CanonicalKey, Fresh, Library.VerifySignature, Library.DecodeKey;
    var (body, sigs) := SplitSignatures(text).value;
    var named := map fp | fp in sigs && lib.DecodeKey(fp).Some? :: lib.DecodeKey(fp).value;
    var good := Vouching(lib, named, body, sigs);
    assert good <= named.Keys && |named.Keys| == |named|;
    FullSubset(good, named.Keys);
    forall fp | fp in sigs ensures CanonicalKey(lib, fp) && fp in good {
      assert lib.DecodeKey(fp).Some? by {
        KeyDecodes(lib, fp);
      }
    }
  }

  lemma KeyDecodes(lib: Library, fp: string)
    ensures CanonicalKey(lib, fp) ==> lib.DecodeKey(fp).Some?
  {
  }

  lemma {:induction false} FullSubset<T>(xs: set<T>, ys: set<T>)
    requires xs <= ys && |xs| >= |ys|
    ensures xs == ys
  {
    if x :| x in ys && x !in xs {
      SubsetSize(xs, ys - {x});
    }
  }

  // ---- co-signing

  predicate ValidAuthoritySet(lib: Library, authorities: map<string, Key>, threshold: int) {
    threshold >= 1 && |authorities| >= threshold && CanonicalAuthorities(lib, authorities)
  }

  predicate AuthorityCanSign(lib: Library, id: Option<Identity>, authorities: map<string, Key>) {
    id.Some? && |id.value.pub| == 32 &&
    (var fp := lib.EncodeKey(id.value.pub); fp in authorities && authorities[fp] == id.value.pub)
  }

  predicate EpochMatches(c: Consensus, epoch: int, lifetime: int) {
    EpochSettings(epoch, lifetime) && c.validAfter == EpochStart(c.validAfter, epoch) && c.validUntil == c.validAfter + lifetime
  }

  /** All the checks an authority makes before signing another's candidate. */
  function PrepareCoSign(lib: Library, data: string, id: Option<Identity>, local: seq<D.Descriptor>,
                         authorities: map<string, Key>, now: int, epoch: int, lifetime: int): Option<Consensus>
  {
    if !ValidAuthoritySet(lib, authorities, 1) || !AuthorityCanSign(lib, id, authorities) then None
    else
      match ParsePartial(lib, data, now)
      case None => None
      case Some(c) =>
        var expected := Consensus(c.validAfter, c.validUntil, local, map[], None);
        if exists fp :: fp in c.signatures && fp !in authorities then None
        else if lib.EncodeKey(id.value.pub) in c.signatures || !EpochMatches(c, epoch, lifetime) then None
        else if c.validAfter != EpochStart(now, epoch) || !Validate(lib, expected) then None
        else if c.raw != Some(Body(lib, expected)) then None
        else Some(c)
  }

  /** Co-signing is agreement: what gets signed is the very body this authority would have built alone. */
  lemma CoSignerSignsOwnBody(lib: Library, data: string, id: Option<Identity>, local: seq<D.Descriptor>,
                             authorities: map<string, Key>, now: int, epoch: int, lifetime: int)
    requires PrepareCoSign(lib, data, id, local, authorities, now, epoch, lifetime).Some?
    ensures NewEpochConsensus(lib, local, now, epoch, lifetime).Some?
    ensures PrepareCoSign(lib, data, id, local, authorities, now, epoch, lifetime).value.raw ==
            NewEpochConsensus(lib, local, now, epoch, lifetime).value.raw
  {
    hide ParsePartial, Validate, Body, AuthorityCanSign, ValidAuthoritySet;
  }

  /** A relay set an authority selected from its own descriptors for one window. */
  ghost predicate Selected(lib: Library, relays: seq<D.Descriptor>, now: int, epoch: int, lifetime: int, body: string) {
    && AllFromParser(lib, relays)
    && NewEpochConsensus(lib, relays, now, epoch, lifetime).Some?
    && NewEpochConsensus(lib, relays, now, epoch, lifetime).value.raw == Some(body)
    && 0 < EpochStart(now, epoch) && EpochStart(now, epoch) + lifetime < YEAR_10000
  }

  lemma EpochPrintable(lib: Library, now: int, epoch: int, lifetime: int)
    requires lib.Sound() && EpochSettings(epoch, lifetime)
    requires 0 < EpochStart(now, epoch) && EpochStart(now, epoch) + lifetime < YEAR_10000
    ensures lib.Printable(EpochStart(now, epoch)) && lib.Printable(EpochStart(now, epoch) + lifetime)
  {
    var k, start := epoch / SECOND, EpochStart(now, epoch);
    assert epoch == k * SECOND;
    assert start == (now / epoch) * epoch == ((now / epoch) * k) * SECOND;
    WholeSeconds(start, (now / epoch) * k, lifetime);
  }

  lemma WholeSeconds(start: int, n: int, lifetime: int)
    requires start == n * SECOND && lifetime % SECOND == 0
    ensures start % SECOND == 0 && (start + lifetime) % SECOND == 0
  {
  }

  /** A document a client accepts over a body some authority selected lists exactly that authority's relays, each once. */
  lemma AcceptedListsSelection(lib: Library, text: string, clientNow: int, relays: seq<D.Descriptor>,
                               now: int, epoch: int, lifetime: int)
    requires lib.Sound() && ParseBody(lib, text, clientNow).Some?
    requires Selected(lib, relays, now, epoch, lifetime, ParseBody(lib, text, clientNow).value.raw.value)
    ensures var c := ParseBody(lib, text, clientNow).value;
            && RelaySet(c.relays) == RelaySet(relays) && DistinctIdentities(c.relays)
            && c.validAfter == EpochStart(now, epoch) && c.validUntil == EpochStart(now, epoch) + lifetime
  {
    hide SplitSignatures, ReadBody, Body, D.FromParser, D.Validate, D.Encoded, D.ValidThroughout, D.Fits, Split, Listed, Fresh;
    var own := NewEpochConsensus(lib, relays, now, epoch, lifetime).value;
    AcceptedIsCanonical(lib, text, clientNow);
    EpochPrintable(lib, now, epoch, lifetime);
    hide EpochStart, ParseBody;
    BodyDetermines(lib, ParseBody(lib, text, clientNow).value, own);
  }
}
