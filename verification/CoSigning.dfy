/** From signing keys to documents that clients accept: signing in turn, signing apart and merging, and co-signing. */
module CoSigning {
  import opened Prelude
  import opened Text
  import opened Library
  import D = Descriptors
  import opened Consensuses
  import opened ConsensusLaws
  import opened ConsensusRoundTrip
  import opened Workflow
  import opened Merge

  // ---- candidates

  /** Parsed descriptors of different relays, each dated and lasting for the whole window. */
  ghost predicate Selectable(lib: Library, relays: seq<D.Descriptor>, validAfter: int, validUntil: int) {
    && (forall d :: d in relays ==>
          D.FromParser(lib, d) && d.published - 300 * SECOND <= validAfter <= d.expires && validUntil <= d.expires)
    && DistinctIdentities(relays)
  }

  lemma SelectableIsValid(lib: Library, c: Consensus)
    requires AllFromParser(lib, c.relays)
    ensures Validate(lib, c) <==>
      c.validAfter != 0 && c.validUntil != 0 && c.validAfter < c.validUntil && Selectable(lib, c.relays, c.validAfter, c.validUntil)
  {
    hide D.Parse, D.Encoded, D.Validate, D.FromParser;
    forall d | d in c.relays ensures D.FromParser(lib, d) && D.Encoded(d) != "" && D.Validate(lib, d) {
      D.Reparse(lib, d);
    }
  }

  /** A candidate exists exactly for sensible settings and a selection that fits the window of the current epoch. */
  lemma CandidateIff(lib: Library, relays: seq<D.Descriptor>, now: int, epoch: int, lifetime: int, start: int)
    requires AllFromParser(lib, relays) && epoch > 0 && start % epoch == 0 && start <= now < start + epoch
    ensures var r := NewEpochConsensus(lib, relays, now, epoch, lifetime);
      && (r.Some? <==> epoch >= SECOND && epoch % SECOND == 0 && lifetime > epoch && lifetime % SECOND == 0 &&
                       start != 0 && start + lifetime != 0 && Selectable(lib, relays, start, start + lifetime))
      && (r.Some? ==> r.value == Consensus(start, start + lifetime, relays, map[], Some(Body(lib, r.value))))
  {
    OneMultiple(now, epoch, start);
    hide Selectable, Validate, Body;
    SelectableIsValid(lib, Consensus(start, start + lifetime, relays, map[], None));
  }

  lemma OneMultiple(now: int, epoch: int, start: int)
    requires epoch > 0 && start % epoch == 0 && start <= now < start + epoch
    ensures EpochStart(now, epoch) == start
  {
    var q := start / epoch;
    assert start == q * epoch;
    SameRemainder(now, epoch, q, now - start);
  }

  // ---- signing in turn

  ghost predicate Signers(lib: Library, ids: seq<Identity>) {
    && (forall i :: 0 <= i < |ids| ==> lib.KeyPair(ids[i]))
    && (forall i, j :: 0 <= i < j < |ids| ==> ids[i].pub != ids[j].pub)
  }

  /** The document passed from one authority to the next. */
  function SignInTurn(lib: Library, c: Consensus, ids: seq<Identity>): Option<Consensus> {
    if ids == [] then Some(c)
    else
      match SignInTurn(lib, c, ids[..|ids| - 1])
      case None => None
      case Some(d) => SignWith(lib, d, Some(ids[|ids| - 1]))
  }

  /** Exactly these authorities' own signatures over the body. */
  ghost predicate CarriesAll(lib: Library, body: string, ids: seq<Identity>, sigs: map<string, string>) {
    && (forall i :: 0 <= i < |ids| ==> lib.EncodeKey(ids[i].pub) in sigs)
    && (forall fp :: fp in sigs ==>
          exists i :: 0 <= i < |ids| && fp == lib.EncodeKey(ids[i].pub) && sigs[fp] == lib.encode64(ids[i].sign(body)))
  }

  lemma {:induction false} SignInTurnGives(lib: Library, c: Consensus, ids: seq<Identity>)
    requires lib.Sound() && Validate(lib, c) && c.raw == None && c.signatures == map[] && Signers(lib, ids)
    ensures SignInTurn(lib, c, ids).Some?
    ensures var d := SignInTurn(lib, c, ids).value;
      && d == Consensus(c.validAfter, c.validUntil, c.relays, d.signatures, if ids == [] then None else Some(Body(lib, c)))
      && CarriesAll(lib, Body(lib, c), ids, d.signatures)
      && |d.signatures| == |ids|
  {
    hide Body, Library.EncodeKey, Library.Sound, Library.KeyPair, SignWith, Validate;
    if ids != [] {
      var init, id := ids[..|ids| - 1], ids[|ids| - 1];
      assert ids == init + [id] && lib.KeyPair(id) && Signers(lib, init);
      hide CarriesAll, Signers;
      SignInTurnGives(lib, c, init);
      var d := SignInTurn(lib, c, init).value;
      SameText(lib, c, d);
      SignTakes(lib, d, id);
      NewSigner(lib, Body(lib, c), init, id, d.signatures);
      MoreKeys(d.signatures, lib.EncodeKey(id.pub), lib.encode64(id.sign(Body(lib, c))));
    }
  }

  lemma MoreKeys(sigs: map<string, string>, fp: string, sig: string)
    requires fp !in sigs
    ensures |sigs[fp := sig]| == |sigs| + 1
  {
    assert sigs[fp := sig].Keys == sigs.Keys + {fp} && |sigs[fp := sig].Keys| == |sigs[fp := sig]| && |sigs.Keys| == |sigs|;
  }

  lemma SignTakes(lib: Library, d: Consensus, id: Identity)
    requires Validate(lib, d) && lib.KeyPair(id) && (d.raw == None || d.raw == Some(Body(lib, d)))
    ensures SignWith(lib, d, Some(id)) ==
            Some(d.(raw := Some(Body(lib, d)), signatures := d.signatures[lib.EncodeKey(id.pub) := lib.encode64(id.sign(Body(lib, d)))]))
  {
    hide Body, Validate;
  }

  lemma NewSigner(lib: Library, body: string, ids: seq<Identity>, id: Identity, sigs: map<string, string>)
    requires lib.Sound() && Signers(lib, ids + [id]) && CarriesAll(lib, body, ids, sigs)
    ensures lib.EncodeKey(id.pub) !in sigs
    ensures CarriesAll(lib, body, ids + [id], sigs[lib.EncodeKey(id.pub) := lib.encode64(id.sign(body))])
  {
    var all, fp := ids + [id], lib.EncodeKey(id.pub);
    assert all[|ids|] == id;
    if fp in sigs {
      var i :| 0 <= i < |ids| && fp == lib.EncodeKey(ids[i].pub);
      assert all[i] == ids[i] && all[i].pub != all[|ids|].pub;
      EqualKeyTexts(lib, id.pub, ids[i].pub);
    }
    hide Library.EncodeKey, Library.Sound, Signers;
    var more := sigs[fp := lib.encode64(id.sign(body))];
    forall g | g in more
      ensures exists i :: 0 <= i < |all| && g == lib.EncodeKey(all[i].pub) && more[g] == lib.encode64(all[i].sign(body))
    {
      if g != fp {
        var i :| 0 <= i < |ids| && g == lib.EncodeKey(ids[i].pub) && sigs[g] == lib.encode64(ids[i].sign(body));
        assert all[i] == ids[i];
      } else {
        assert g == lib.EncodeKey(all[|ids|].pub);
      }
    }
    forall i | 0 <= i < |all| ensures lib.EncodeKey(all[i].pub) in more {
      assert i < |ids| ==> all[i] == ids[i];
    }
  }

  lemma SameText(lib: Library, c: Consensus, d: Consensus)
    requires d.validAfter == c.validAfter && d.validUntil == c.validUntil && d.relays == c.relays && Validate(lib, c)
    ensures Body(lib, d) == Body(lib, c) && Validate(lib, d)
  {
  }

  /** What authorities have signed can be written, and its signatures fit on lines. */
  lemma SignedIsEncodable(lib: Library, c: Consensus, ids: seq<Identity>, sigs: map<string, string>)
    requires lib.Sound() && Validate(lib, c) && Signers(lib, ids) && ids != [] && CarriesAll(lib, Body(lib, c), ids, sigs)
    ensures var d := Consensus(c.validAfter, c.validUntil, c.relays, sigs, Some(Body(lib, c)));
            Encodable(lib, d) && CarriedSignatures(sigs) && Body(lib, d) == Body(lib, c)
  {
    var body := Body(lib, c);
    var d := Consensus(c.validAfter, c.validUntil, c.relays, sigs, Some(body));
    SameText(lib, c, d);
    assert lib.EncodeKey(ids[0].pub) in sigs;
    AllCheck(lib, body, ids, sigs);
    hide Body, Validate, SignatureChecks, Library.EncodeKey, Library.KeyPair, Carried, Library.Sound, CarriesAll, Signers;
  }

  lemma AllCheck(lib: Library, body: string, ids: seq<Identity>, sigs: map<string, string>)
    requires lib.Sound() && Signers(lib, ids) && CarriesAll(lib, body, ids, sigs)
    ensures forall fp :: fp in sigs ==> SignatureChecks(lib, body, fp, sigs[fp]) && Carried(sigs[fp])
  {
    hide SignatureChecks, Library.EncodeKey, Library.KeyPair, Carried, Library.Sound;
    forall fp | fp in sigs ensures SignatureChecks(lib, body, fp, sigs[fp]) && Carried(sigs[fp]) {
      var i :| 0 <= i < |ids| && fp == lib.EncodeKey(ids[i].pub) && sigs[fp] == lib.encode64(ids[i].sign(body));
      OwnSignatureChecks(lib, ids[i], body);
    }
  }

  lemma OwnSignatureChecks(lib: Library, id: Identity, body: string)
    requires lib.Sound() && lib.KeyPair(id)
    ensures var sig := lib.encode64(id.sign(body)); SignatureChecks(lib, body, lib.EncodeKey(id.pub), sig) && Carried(sig)
  {
    lib.SignatureText(id, body);
    lib.KeyText(id.pub);
    hide Library.EncodeKey, Library.DecodeKey, Library.VerifySignature, Library.KeyPair;
    var sig := lib.encode64(id.sign(body));
    assert sig[|sig| - 1] in sig;
  }

  /** How many of these signers a client knows. */
  ghost function Known(lib: Library, ids: seq<Identity>, authorities: map<string, Key>): set<string> {
    set i | 0 <= i < |ids| && lib.EncodeKey(ids[i].pub) in authorities :: lib.EncodeKey(ids[i].pub)
  }

  /**
   * A candidate that authorities sign in turn can always be written unless it grows beyond 8 MiB, and is then accepted exactly
   * from five minutes before its window until its end by the clients that know a threshold of the signers.
   */
  lemma QuorumIsAccepted(lib: Library, c: Consensus, ids: seq<Identity>, authorities: map<string, Key>, threshold: int, now: int)
    requires Printed(lib, c) && c.raw == None && c.signatures == map[] && Signers(lib, ids) && ids != []
    requires CanonicalAuthorities(lib, authorities)
    ensures SignInTurn(lib, c, ids).Some?
    ensures var d := SignInTurn(lib, c, ids).value;
      && (Encoding(lib, d).Some? <==> |EncodedText(lib, d)| <= 8_388_608)
      && (Encoding(lib, d).Some? ==>
            var r := Parse(lib, Encoding(lib, d).value, authorities, threshold, now);
            && (r.Some? <==> c.validAfter - 300 * SECOND <= now < c.validUntil && 1 <= threshold <= |Known(lib, ids, authorities)|)
            && (r.Some? ==> r.value.validAfter == c.validAfter && r.value.validUntil == c.validUntil &&
                            RelaySet(r.value.relays) == RelaySet(c.relays) &&
                            CarriesAll(lib, r.value.raw.value, ids, r.value.signatures)))
  {
    hide Library.EncodeKey, Library.Sound, Parse, EncodedText, Encodable, Body, Validate, Listed, AllFromParser, CanonicalAuthorities,
      RelaySet, Library.Printable, SignInTurn, Signers;
    SignInTurnGives(lib, c, ids);
    var d := SignInTurn(lib, c, ids).value;
    SameText(lib, c, d);
    SignedIsEncodable(lib, c, ids, d.signatures);
    if Encoding(lib, d).Some? {
      RoundTrip(lib, d, authorities, threshold, now);
      KnownKeys(lib, Body(lib, c), ids, d.signatures, authorities);
    }
  }

  lemma KnownKeys(lib: Library, body: string, ids: seq<Identity>, sigs: map<string, string>, authorities: map<string, Key>)
    requires CarriesAll(lib, body, ids, sigs)
    ensures sigs.Keys * authorities.Keys == Known(lib, ids, authorities)
  {
    hide Library.EncodeKey;
  }

  // ---- signing apart

  /** Each authority signed the candidate by itself and wrote its own document. */
  ghost predicate SignedApart(lib: Library, c: Consensus, ids: seq<Identity>, parts: seq<string>) {
    |parts| == |ids| &&
    forall i :: 0 <= i < |ids| ==>
      SignWith(lib, c, Some(ids[i])).Some? && Encoding(lib, SignWith(lib, c, Some(ids[i])).value) == Some(parts[i])
  }

  lemma OnePart(lib: Library, c: Consensus, id: Identity, part: string, now: int)
    requires Printed(lib, c) && c.raw == None && c.signatures == map[] && lib.KeyPair(id)
    requires SignWith(lib, c, Some(id)).Some? && Encoding(lib, SignWith(lib, c, Some(id)).value) == Some(part)
    ensures var r := ParsePartial(lib, part, now);
      && (r.Some? <==> c.validAfter - 300 * SECOND <= now < c.validUntil)
      && (r.Some? ==> r.value.raw == Some(Body(lib, c)) &&
                      r.value.signatures == map[lib.EncodeKey(id.pub) := lib.encode64(id.sign(Body(lib, c)))])
  {
    hide Body, Validate, ParsePartial, Encoding, AllFromParser, Library.Printable, Library.Sound, SignWith, Listed, Library.EncodeKey;
    SignTakes(lib, c, id);
    var d := SignWith(lib, c, Some(id)).value;
    SameText(lib, c, d);
    assert lib.EncodeKey([id][0].pub) in d.signatures;
    SignedIsEncodable(lib, c, [id], d.signatures);
    PartialReads(lib, part, now, d);
  }

  /** Merging what authorities signed apart gives, byte for byte, what they would have written signing in turn. */
  lemma MergedApartIsInTurn(lib: Library, c: Consensus, ids: seq<Identity>, parts: seq<string>, authorities: map<string, Key>,
                            threshold: int, now: int)
    requires Printed(lib, c) && c.raw == None && c.signatures == map[] && Signers(lib, ids) && ids != []
    requires SignedApart(lib, c, ids, parts)
    ensures SignInTurn(lib, c, ids).Some?
    ensures MergeOf(lib, Members(parts), authorities, threshold, now) ==
      if c.validAfter - 300 * SECOND <= now < c.validUntil && CanonicalAuthorities(lib, authorities) && 1 <= threshold <= |ids|
         && forall i :: 0 <= i < |ids| ==> lib.EncodeKey(ids[i].pub) in authorities
      then Encoding(lib, SignInTurn(lib, c, ids).value) else None
  {
    hide Body, Validate, ParsePartial, Encoding, AllFromParser, Library.Printable, Library.Sound, SignWith, Library.EncodeKey, MergeOf,
      CarriesAll, SignInTurn, ValidAuthoritySet, Gathered, GoodPart, Signers;
    SignInTurnGives(lib, c, ids);
    var d := SignInTurn(lib, c, ids).value;
    assert lib.KeyPair(ids[0]) && parts[0] in Members(parts) by { FirstSigner(lib, ids); }
    OnePart(lib, c, ids[0], parts[0], now);
    if c.validAfter - 300 * SECOND <= now < c.validUntil {
      if i :| 0 <= i < |ids| && lib.EncodeKey(ids[i].pub) !in authorities {
        UnknownSigner(lib, c, ids, parts, authorities, threshold, now, i);
      } else {
        KnownSigners(lib, c, ids, parts, authorities, threshold, now, d);
      }
    } else {
      assert !GoodPart(lib, parts[0], authorities, now) by { NotRead(lib, parts[0], authorities, now); }
      BadPart(lib, Members(parts), authorities, threshold, now, parts[0]);
    }
  }

  lemma FirstSigner(lib: Library, ids: seq<Identity>)
    requires Signers(lib, ids)
    ensures forall i :: 0 <= i < |ids| ==> lib.KeyPair(ids[i])
  {
  }

  lemma NotRead(lib: Library, part: string, authorities: map<string, Key>, now: int)
    ensures ParsePartial(lib, part, now) == None ==> !GoodPart(lib, part, authorities, now)
  {
  }

  lemma UnknownSigner(lib: Library, c: Consensus, ids: seq<Identity>, parts: seq<string>, authorities: map<string, Key>,
                      threshold: int, now: int, i: nat)
    requires Printed(lib, c) && c.raw == None && c.signatures == map[] && Signers(lib, ids) && SignedApart(lib, c, ids, parts)
    requires i < |ids| && lib.EncodeKey(ids[i].pub) !in authorities
    ensures MergeOf(lib, Members(parts), authorities, threshold, now) == None
  {
    hide Body, Validate, ParsePartial, Encoding, Printed, SignWith, Library.EncodeKey, MergeOf;
    FirstSigner(lib, ids);
    OnePart(lib, c, ids[i], parts[i], now);
    BadPart(lib, Members(parts), authorities, threshold, now, parts[i]);
  }

  /** The part is a good one, and what it carries is this authority's signature as it stands among all of them. */
  ghost predicate PartFits(lib: Library, part: string, fp: string, authorities: map<string, Key>, now: int, body: string,
                           sigs: map<string, string>)
  {
    && GoodPart(lib, part, authorities, now) && RawOf(lib, part, now) == body
    && fp in sigs && Sigs(lib, part, now) == map[fp := sigs[fp]]
  }

  lemma PartsGather(lib: Library, c: Consensus, ids: seq<Identity>, parts: seq<string>, authorities: map<string, Key>, now: int,
                    sigs: map<string, string>)
    requires Printed(lib, c) && c.raw == None && c.signatures == map[] && Signers(lib, ids) && SignedApart(lib, c, ids, parts)
    requires c.validAfter - 300 * SECOND <= now < c.validUntil && CarriesAll(lib, Body(lib, c), ids, sigs)
    requires forall i :: 0 <= i < |ids| ==> lib.EncodeKey(ids[i].pub) in authorities
    ensures Gathered(lib, Members(parts), authorities, now, Body(lib, c), sigs)
  {
    hide Body, Printed, SignedApart, Signers, PartFits, Library.EncodeKey, CarriesAll, Gathered;
    SameCount(lib, c, ids, parts);
    forall i | 0 <= i < |ids| ensures PartFits(lib, parts[i], lib.EncodeKey(ids[i].pub), authorities, now, Body(lib, c), sigs) {
      PartIsGood(lib, c, ids, parts, authorities, now, sigs, i);
    }
    PartsCover(lib, Body(lib, c), ids, parts, authorities, now, sigs);
  }

  lemma SameCount(lib: Library, c: Consensus, ids: seq<Identity>, parts: seq<string>)
    requires SignedApart(lib, c, ids, parts)
    ensures |parts| == |ids|
  {
  }

  lemma PartIsGood(lib: Library, c: Consensus, ids: seq<Identity>, parts: seq<string>, authorities: map<string, Key>, now: int,
                   sigs: map<string, string>, i: nat)
    requires Printed(lib, c) && c.raw == None && c.signatures == map[] && Signers(lib, ids) && SignedApart(lib, c, ids, parts)
    requires c.validAfter - 300 * SECOND <= now < c.validUntil && CarriesAll(lib, Body(lib, c), ids, sigs)
    requires i < |ids| && lib.EncodeKey(ids[i].pub) in authorities
    ensures PartFits(lib, parts[i], lib.EncodeKey(ids[i].pub), authorities, now, Body(lib, c), sigs)
  {
    hide Body, Validate, ParsePartial, Encoding, SignWith, Library.EncodeKey, Library.Printable, AllFromParser, Library.Sound,
      Library.KeyPair;
    OnePart(lib, c, ids[i], parts[i], now);
    OwnSignature(lib, Body(lib, c), ids, sigs, i);
    hide SignedApart, Signers, CarriesAll;
  }

  lemma OwnSignature(lib: Library, body: string, ids: seq<Identity>, sigs: map<string, string>, i: nat)
    requires lib.Sound() && Signers(lib, ids) && CarriesAll(lib, body, ids, sigs) && i < |ids|
    ensures var fp := lib.EncodeKey(ids[i].pub); fp in sigs && sigs[fp] == lib.encode64(ids[i].sign(body))
  {
    hide Library.EncodeKey, Library.Sound, Library.KeyPair;
    var fp := lib.EncodeKey(ids[i].pub);
    var j :| 0 <= j < |ids| && fp == lib.EncodeKey(ids[j].pub) && sigs[fp] == lib.encode64(ids[j].sign(body));
    EqualKeyTexts(lib, ids[i].pub, ids[j].pub);
  }

  lemma PartsCover(lib: Library, body: string, ids: seq<Identity>, parts: seq<string>, authorities: map<string, Key>, now: int,
                   sigs: map<string, string>)
    requires |parts| == |ids| && CarriesAll(lib, body, ids, sigs)
    requires forall i :: 0 <= i < |ids| ==> PartFits(lib, parts[i], lib.EncodeKey(ids[i].pub), authorities, now, body, sigs)
    ensures Gathered(lib, Members(parts), authorities, now, body, sigs)
  {
    hide PartFits, Library.EncodeKey, Members, CarriesAll;
    forall p | p in Members(parts)
      ensures GoodPart(lib, p, authorities, now) && RawOf(lib, p, now) == body
      ensures forall fp :: fp in Sigs(lib, p, now) ==> fp in sigs && sigs[fp] == Sigs(lib, p, now)[fp]
    {
      var i := MemberAt(parts, p);
      WhatFits(lib, p, lib.EncodeKey(ids[i].pub), authorities, now, body, sigs);
      hide GoodPart, RawOf, Sigs;
    }
    forall fp | fp in sigs ensures exists p :: p in Members(parts) && fp in Sigs(lib, p, now) {
      var i := SignerAt(lib, body, ids, sigs, fp);
      IsMember(parts, i);
      WhatFits(lib, parts[i], fp, authorities, now, body, sigs);
      hide GoodPart, RawOf, Sigs;
    }
    hide GoodPart, RawOf, Sigs;
  }

  lemma WhatFits(lib: Library, part: string, fp: string, authorities: map<string, Key>, now: int, body: string,
                 sigs: map<string, string>)
    requires PartFits(lib, part, fp, authorities, now, body, sigs)
    ensures GoodPart(lib, part, authorities, now) && RawOf(lib, part, now) == body
    ensures fp in Sigs(lib, part, now)
    ensures forall g :: g in Sigs(lib, part, now) ==> g in sigs && sigs[g] == Sigs(lib, part, now)[g]
  {
    hide GoodPart, RawOf, Sigs;
  }

  lemma SignerAt(lib: Library, body: string, ids: seq<Identity>, sigs: map<string, string>, fp: string) returns (i: nat)
    requires CarriesAll(lib, body, ids, sigs) && fp in sigs
    ensures i < |ids| && fp == lib.EncodeKey(ids[i].pub)
  {
    hide Library.EncodeKey;
    i :| 0 <= i < |ids| && fp == lib.EncodeKey(ids[i].pub);
  }

  lemma MemberAt(parts: seq<string>, p: string) returns (i: nat)
    requires p in Members(parts)
    ensures i < |parts| && parts[i] == p
  {
    i :| 0 <= i < |parts| && parts[i] == p;
  }

  lemma IsMember(parts: seq<string>, i: nat)
    requires i < |parts|
    ensures parts[i] in Members(parts)
  {
  }

  lemma KnownSigners(lib: Library, c: Consensus, ids: seq<Identity>, parts: seq<string>, authorities: map<string, Key>,
                     threshold: int, now: int, d: Consensus)
    requires Printed(lib, c) && c.raw == None && c.signatures == map[] && Signers(lib, ids) && ids != []
    requires SignedApart(lib, c, ids, parts) && c.validAfter - 300 * SECOND <= now < c.validUntil
    requires forall i :: 0 <= i < |ids| ==> lib.EncodeKey(ids[i].pub) in authorities
    requires d == Consensus(c.validAfter, c.validUntil, c.relays, d.signatures, Some(Body(lib, c)))
    requires CarriesAll(lib, Body(lib, c), ids, d.signatures) && |d.signatures| == |ids|
    ensures MergeOf(lib, Members(parts), authorities, threshold, now) ==
      if CanonicalAuthorities(lib, authorities) && 1 <= threshold <= |ids| then Encoding(lib, d) else None
  {
    hide Body, Validate, ParsePartial, Library.Sound, SignWith, Library.EncodeKey, MergeOf, Document, Encodable, EncodedText,
      CarriesAll, Gathered, Printed, Signers, CanonicalAuthorities;
    FirstSigner(lib, ids);
    OnePart(lib, c, ids[0], parts[0], now);
    KeysFit(lib, Body(lib, c), ids, d.signatures, authorities);
    if ValidAuthoritySet(lib, authorities, threshold) {
      PartsGather(lib, c, ids, parts, authorities, now, d.signatures);
      MergedValue(lib, parts, authorities, threshold, now, ParsePartial(lib, parts[0], now).value, d.signatures);
      WrittenAsDocument(lib, c, d, ids);
    } else {
      NothingToMerge(lib, Members(parts), authorities, threshold, now);
    }
  }

  lemma KeysFit(lib: Library, body: string, ids: seq<Identity>, sigs: map<string, string>, authorities: map<string, Key>)
    requires CarriesAll(lib, body, ids, sigs) && forall i :: 0 <= i < |ids| ==> lib.EncodeKey(ids[i].pub) in authorities
    ensures |sigs| <= |authorities|
  {
    hide Library.EncodeKey;
    SubsetSize(sigs.Keys, authorities.Keys);
    assert |sigs.Keys| == |sigs| && |authorities.Keys| == |authorities|;
  }

  lemma WrittenAsDocument(lib: Library, c: Consensus, d: Consensus, ids: seq<Identity>)
    requires Printed(lib, c) && Signers(lib, ids) && ids != [] && CarriesAll(lib, Body(lib, c), ids, d.signatures)
    requires d == Consensus(c.validAfter, c.validUntil, c.relays, d.signatures, Some(Body(lib, c)))
    ensures Encoding(lib, d) ==
            var text := Document(Body(lib, c), d.signatures); if |text| > MAX_SIZE then None else Some(text)
  {
    hide Encodable, Body, Validate, CarriesAll, Signers, AllFromParser, Library.Sound, Library.Printable, SignatureLines, Join;
    SignedIsEncodable(lib, c, ids, d.signatures);
  }

  // ---- co-signing

  /**
   * An authority co-signs a document exactly when every signer and it itself are known authorities, it has not signed yet, and
   * the body is byte for byte the one it builds now from its own descriptors; the clock, the epoch and the window need no
   * further word.
   */
  lemma CoSignsExactlyItsOwn(lib: Library, d: Consensus, id: Identity, local: seq<D.Descriptor>, authorities: map<string, Key>,
                             now: int, epoch: int, lifetime: int)
    requires Printed(lib, d) && Encoding(lib, d).Some? && CarriedSignatures(d.signatures) && AllFromParser(lib, local)
    requires epoch > 0 && 0 < EpochStart(now, epoch) && EpochStart(now, epoch) + lifetime < YEAR_10000
    ensures var own := NewEpochConsensus(lib, local, now, epoch, lifetime);
      PrepareCoSign(lib, Encoding(lib, d).value, Some(id), local, authorities, now, epoch, lifetime) ==
        if CanonicalAuthorities(lib, authorities) && |id.pub| == 32 && lib.EncodeKey(id.pub) in authorities
           && d.signatures.Keys <= authorities.Keys && lib.EncodeKey(id.pub) !in d.signatures
           && own.Some? && own.value.raw == Some(Body(lib, d))
        then Some(Canonical(lib, d)) else None
  {
    hide *;
    var text, own := Encoding(lib, d).value, NewEpochConsensus(lib, local, now, epoch, lifetime);
    PartialReads(lib, text, now, d);
    CanonicalKeeps(lib, d);
    if PrepareCoSign(lib, text, Some(id), local, authorities, now, epoch, lifetime).Some? {
      CoSignerSignsOwnBody(lib, text, Some(id), local, authorities, now, epoch, lifetime);
      CoSignerIsKnown(lib, text, id, local, authorities, now, epoch, lifetime);
    } else if own.Some? && own.value.raw == Some(Body(lib, d)) {
      SameCandidate(lib, d, local, now, epoch, lifetime);
      if lib.EncodeKey(id.pub) in authorities && CanonicalAuthorities(lib, authorities) && |id.pub| == 32 {
        KnownAuthority(lib, id, authorities);
        WouldCoSign(lib, text, Canonical(lib, d), id, local, authorities, now, epoch, lifetime);
      }
    }
  }

  lemma CanonicalKeeps(lib: Library, d: Consensus)
    requires Printed(lib, d)
    ensures lib.Sound()
    ensures var c := Canonical(lib, d);
      c.validAfter == d.validAfter && c.validUntil == d.validUntil && c.signatures == d.signatures && c.raw == Some(Body(lib, d))
    ensures forall epoch, lifetime :: EpochMatches(d, epoch, lifetime) ==> EpochMatches(Canonical(lib, d), epoch, lifetime)
  {
    hide Body, Validate, Listed, AllFromParser, EpochStart, EpochSettings;
  }

  lemma CoSignerIsKnown(lib: Library, text: string, id: Identity, local: seq<D.Descriptor>, authorities: map<string, Key>,
                        now: int, epoch: int, lifetime: int)
    requires PrepareCoSign(lib, text, Some(id), local, authorities, now, epoch, lifetime).Some?
    ensures var r := PrepareCoSign(lib, text, Some(id), local, authorities, now, epoch, lifetime);
      && r == ParsePartial(lib, text, now) && r.value.signatures.Keys <= authorities.Keys && lib.EncodeKey(id.pub) !in r.value.signatures
      && CanonicalAuthorities(lib, authorities) && |id.pub| == 32 && lib.EncodeKey(id.pub) in authorities
  {
    hide ParsePartial, Validate, Body, EpochMatches, EpochStart, Library.EncodeKey;
  }

  lemma KnownAuthority(lib: Library, id: Identity, authorities: map<string, Key>)
    requires lib.Sound() && lib.EncodeKey(id.pub) in authorities && CanonicalAuthorities(lib, authorities) && |id.pub| == 32
    ensures AuthorityCanSign(lib, Some(id), authorities) && ValidAuthoritySet(lib, authorities, 1)
  {
    EqualKeyTexts(lib, authorities[lib.EncodeKey(id.pub)], id.pub);
    hide Library.EncodeKey, Library.Sound;
    assert authorities.Keys != {} && |authorities.Keys| == |authorities|;
  }

  lemma WouldCoSign(lib: Library, text: string, c: Consensus, id: Identity, local: seq<D.Descriptor>, authorities: map<string, Key>,
                    now: int, epoch: int, lifetime: int)
    requires AuthorityCanSign(lib, Some(id), authorities) && ValidAuthoritySet(lib, authorities, 1)
    requires epoch > 0 && ParsePartial(lib, text, now) == Some(c) && c.raw.Some?
    requires c.validAfter == EpochStart(now, epoch) && EpochMatches(c, epoch, lifetime)
    requires var expected := Consensus(c.validAfter, c.validUntil, local, map[], None);
             Validate(lib, expected) && Some(Body(lib, expected)) == c.raw
    ensures PrepareCoSign(lib, text, Some(id), local, authorities, now, epoch, lifetime) ==
            if c.signatures.Keys <= authorities.Keys && lib.EncodeKey(id.pub) !in c.signatures then Some(c) else None
  {
    hide ParsePartial, Validate, Body, EpochMatches, EpochStart, Library.EncodeKey, AuthorityCanSign, ValidAuthoritySet;
  }

  /** A document with the body of this authority's candidate has the candidate's window, and the clock is inside it. */
  lemma SameCandidate(lib: Library, d: Consensus, local: seq<D.Descriptor>, now: int, epoch: int, lifetime: int)
    requires Printed(lib, d) && Encoding(lib, d).Some? && AllFromParser(lib, local)
    requires epoch > 0 && 0 < EpochStart(now, epoch) && EpochStart(now, epoch) + lifetime < YEAR_10000
    requires var own := NewEpochConsensus(lib, local, now, epoch, lifetime); own.Some? && own.value.raw == Some(Body(lib, d))
    ensures d.validAfter == EpochStart(now, epoch) && EpochMatches(d, epoch, lifetime)
    ensures d.validAfter - 300 * SECOND <= now < d.validUntil
    ensures var expected := Consensus(d.validAfter, d.validUntil, local, map[], None);
            Validate(lib, expected) && Body(lib, expected) == Body(lib, d)
  {
    var start := EpochStart(now, epoch);
    var own := Consensus(start, start + lifetime, local, map[], Some(Body(lib, d)));
    hide Body, Validate, Encoding, EpochStart, Printed, NewEpochConsensus, EpochMatches, EpochSettings, AllFromParser, Library.Sound;
    PrintedSound(lib, d);
    OwnCandidate(lib, local, now, epoch, lifetime);
    SameText(lib, NewEpochConsensus(lib, local, now, epoch, lifetime).value, own);
    SameWindow(lib, d, own);
    SameText(lib, own, Consensus(start, start + lifetime, local, map[], None));
    WindowMatches(d, now, epoch, lifetime);
  }

  lemma PrintedSound(lib: Library, d: Consensus)
    requires Printed(lib, d)
    ensures lib.Sound()
  {
  }

  lemma WindowMatches(d: Consensus, now: int, epoch: int, lifetime: int)
    requires EpochSettings(epoch, lifetime) && d.validAfter == EpochStart(now, epoch) && d.validUntil == d.validAfter + lifetime
    ensures EpochMatches(d, epoch, lifetime) && d.validAfter - 300 * SECOND <= now < d.validUntil
  {
    MultipleOfItself(now, epoch);
    hide EpochStart;
  }

  lemma OwnCandidate(lib: Library, local: seq<D.Descriptor>, now: int, epoch: int, lifetime: int)
    requires lib.Sound() && AllFromParser(lib, local) && NewEpochConsensus(lib, local, now, epoch, lifetime).Some?
    requires epoch > 0 && 0 < EpochStart(now, epoch) && EpochStart(now, epoch) + lifetime < YEAR_10000
    ensures EpochSettings(epoch, lifetime)
    ensures Validate(lib, NewEpochConsensus(lib, local, now, epoch, lifetime).value)
    ensures var own := NewEpochConsensus(lib, local, now, epoch, lifetime).value;
      && own == Consensus(EpochStart(now, epoch), EpochStart(now, epoch) + lifetime, local, map[], own.raw)
      && own.raw == Some(Body(lib, own)) && Printed(lib, own)
  {
    hide Body, Validate, EpochStart, Library.Sound, Library.Printable, AllFromParser;
    EpochPrintable(lib, now, epoch, lifetime);
  }

  lemma SameWindow(lib: Library, d: Consensus, own: Consensus)
    requires Printed(lib, d) && Encoding(lib, d).Some? && Printed(lib, own) && Body(lib, own) == Body(lib, d)
    ensures d.validAfter == own.validAfter && d.validUntil == own.validUntil && Validate(lib, own)
  {
    hide Body, Validate, Encoding, Library.Sound, Library.Printable, AllFromParser, Split, D.Fits;
    EncodedFits(lib, d);
    BodyDetermines(lib, d, own);
  }

  lemma MultipleOfItself(now: int, epoch: int)
    requires epoch > 0
    ensures var start := EpochStart(now, epoch); EpochStart(start, epoch) == start && start <= now < start + epoch
  {
    var q := now / epoch;
    assert EpochStart(now, epoch) == q * epoch;
    MultipleDivides(q, epoch);
  }

  lemma EncodedFits(lib: Library, d: Consensus)
    requires Printed(lib, d) && Encoding(lib, d).Some?
    ensures D.Fits(Split(Body(lib, d)), LINE_LIMIT)
  {
    hide Body, Validate, AllFromParser, Library.Sound, Library.Printable, SignatureLines, Join, Encodable, D.Fits, Split;
    BodyFits(lib, d);
  }
}
