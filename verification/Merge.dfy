/** Joining partial consensus documents into one. */
module Merge {
  import opened Prelude
  import opened Text
  import opened Library
  import D = Descriptors
  import opened Consensuses
  import opened ConsensusLaws
  import opened ConsensusRoundTrip
  import opened Workflow

  ghost predicate GoodPart(lib: Library, part: string, authorities: map<string, Key>, now: int) {
    ParsePartial(lib, part, now).Some? &&
    forall fp :: fp in ParsePartial(lib, part, now).value.signatures ==> fp in authorities
  }

  ghost function Sigs(lib: Library, part: string, now: int): map<string, string> {
    match ParsePartial(lib, part, now) case None => map[] case Some(c) => c.signatures
  }

  ghost function RawOf(lib: Library, part: string, now: int): string {
    match ParsePartial(lib, part, now) case None => "" case Some(c) => c.raw.value
  }

  /** Every part is authorised and signs one body, and no authority signs it in two ways. */
  ghost predicate Compatible(lib: Library, parts: set<string>, authorities: map<string, Key>, now: int) {
    && (forall p :: p in parts ==> GoodPart(lib, p, authorities, now))
    && (forall p, q :: p in parts && q in parts ==> RawOf(lib, p, now) == RawOf(lib, q, now))
    && (forall p, q, fp :: p in parts && q in parts && fp in Sigs(lib, p, now) && fp in Sigs(lib, q, now) ==>
          Sigs(lib, p, now)[fp] == Sigs(lib, q, now)[fp])
  }

  ghost predicate IsUnion(lib: Library, parts: set<string>, now: int, sigs: map<string, string>) {
    && (forall fp :: fp in sigs ==> exists p :: p in parts && fp in Sigs(lib, p, now) && Sigs(lib, p, now)[fp] == sigs[fp])
    && (forall p, fp :: p in parts && fp in Sigs(lib, p, now) ==> fp in sigs)
  }

  lemma UnionUnique(lib: Library, parts: set<string>, authorities: map<string, Key>, now: int,
                    a: map<string, string>, b: map<string, string>)
    requires Compatible(lib, parts, authorities, now) && IsUnion(lib, parts, now, a) && IsUnion(lib, parts, now, b)
    ensures a == b
  {
    hide GoodPart, RawOf, Sigs;
    forall fp ensures fp in a <==> fp in b {
    }
    forall fp | fp in a ensures a[fp] == b[fp] {
    }
  }

  /** A body followed by its signature lines in key order. */
  ghost function Document(body: string, sigs: map<string, string>): string {
    OrderedMembers(sigs.Keys);
    body + Join(SignatureLines(Ordered(sigs.Keys), sigs))
  }

  /** What merging means: a function of the set of parts, so order and repetition cannot matter. */
  ghost function MergeOf(lib: Library, parts: set<string>, authorities: map<string, Key>, threshold: int, now: int): Option<string> {
    if parts == {} || !ValidAuthoritySet(lib, authorities, threshold) || !Compatible(lib, parts, authorities, now) then None
    else if sigs :| IsUnion(lib, parts, now, sigs) then
      var text := Document(RawOf(lib, Pick(parts), now), sigs);
      if |sigs| < threshold || |text| > MAX_SIZE then None else Some(text)
    else None
  }

  lemma MergeOfIs(lib: Library, parts: set<string>, authorities: map<string, Key>, threshold: int, now: int,
                  sigs: map<string, string>, p: string)
    requires ValidAuthoritySet(lib, authorities, threshold) && Compatible(lib, parts, authorities, now)
    requires p in parts && IsUnion(lib, parts, now, sigs)
    ensures MergeOf(lib, parts, authorities, threshold, now) ==
            var text := Document(RawOf(lib, p, now), sigs);
            if |sigs| < threshold || |text| > MAX_SIZE then None else Some(text)
  {
    hide IsUnion, RawOf, Document, ValidAuthoritySet, GoodPart, Sigs;
    assert RawOf(lib, Pick(parts), now) == RawOf(lib, p, now);
    hide Compatible;
    forall other | IsUnion(lib, parts, now, other) ensures other == sigs {
      UnionUnique(lib, parts, authorities, now, other, sigs);
    }
  }

  // ---- the code

  method AddSignatures(combined: map<string, string>, sigs: map<string, string>) returns (ok: bool, all: map<string, string>)
    ensures ok <==> forall fp :: fp in sigs && fp in combined ==> combined[fp] == sigs[fp]
    ensures ok ==> all == combined + sigs
  {
    all := combined;
    var todo := sigs.Keys;
    while todo != {}
      invariant todo <= sigs.Keys
      invariant forall fp :: fp in sigs && fp !in todo && fp in combined ==> combined[fp] == sigs[fp]
      invariant all == combined + map fp | fp in sigs && fp !in todo :: sigs[fp]
      decreases todo
    {
      var fp :| fp in todo;
      if fp in all && all[fp] != sigs[fp] {
        assert fp in combined && combined[fp] == all[fp];
        return false, all;
      }
      all, todo := all[fp := sigs[fp]], todo - {fp};
    }
    ok := true;
  }

  /** What the loop knows after some parts. */
  ghost predicate Gathered(lib: Library, parts: set<string>, authorities: map<string, Key>, now: int,
                           body: string, combined: map<string, string>)
  {
    && (forall p :: p in parts ==> GoodPart(lib, p, authorities, now) && RawOf(lib, p, now) == body)
    && (forall p, fp :: p in parts && fp in Sigs(lib, p, now) ==> fp in combined && combined[fp] == Sigs(lib, p, now)[fp])
    && (forall fp :: fp in combined ==> exists p :: p in parts && fp in Sigs(lib, p, now))
  }

  lemma GatheredIsUnion(lib: Library, parts: set<string>, authorities: map<string, Key>, now: int,
                        body: string, combined: map<string, string>)
    requires Gathered(lib, parts, authorities, now, body, combined)
    ensures Compatible(lib, parts, authorities, now) && IsUnion(lib, parts, now, combined)
  {
    hide GoodPart, RawOf, Sigs;
    forall p, q | p in parts && q in parts ensures RawOf(lib, p, now) == RawOf(lib, q, now) {
    }
    forall p, q, fp | p in parts && q in parts && fp in Sigs(lib, p, now) && fp in Sigs(lib, q, now)
      ensures Sigs(lib, p, now)[fp] == Sigs(lib, q, now)[fp] {
      assert Sigs(lib, p, now)[fp] == combined[fp];
    }
  }

  lemma GatherOne(lib: Library, parts: set<string>, authorities: map<string, Key>, now: int, body: string,
                  combined: map<string, string>, p: string)
    requires Gathered(lib, parts, authorities, now, body, combined)
    requires GoodPart(lib, p, authorities, now) && RawOf(lib, p, now) == body
    requires forall fp :: fp in Sigs(lib, p, now) && fp in combined ==> combined[fp] == Sigs(lib, p, now)[fp]
    ensures Gathered(lib, parts + {p}, authorities, now, body, combined + Sigs(lib, p, now))
  {
    hide GoodPart, RawOf, Sigs;
    var all := combined + Sigs(lib, p, now);
    forall fp | fp in all ensures exists q :: q in parts + {p} && fp in Sigs(lib, q, now) {
      if fp in Sigs(lib, p, now) {
        assert p in parts + {p};
      } else {
        var q :| q in parts && fp in Sigs(lib, q, now);
        assert q in parts + {p};
      }
    }
  }

  /** A part that cannot be gathered makes the whole set incompatible. */
  lemma Clash(lib: Library, parts: set<string>, some: set<string>, authorities: map<string, Key>, now: int, body: string,
              combined: map<string, string>, p: string)
    requires Gathered(lib, some, authorities, now, body, combined) && some <= parts && p in parts
    requires || !GoodPart(lib, p, authorities, now)
             || (some != {} && RawOf(lib, p, now) != body)
             || exists fp :: fp in Sigs(lib, p, now) && fp in combined && combined[fp] != Sigs(lib, p, now)[fp]
    ensures !Compatible(lib, parts, authorities, now)
  {
    hide GoodPart, RawOf, Sigs;
    if some != {} && RawOf(lib, p, now) != body {
      var q :| q in some;
      assert q in parts;
    } else if fp :| fp in Sigs(lib, p, now) && fp in combined && combined[fp] != Sigs(lib, p, now)[fp] {
      var q :| q in some && fp in Sigs(lib, q, now);
      assert q in parts;
    }
  }

  /** An accepted consensus carrying other good signatures is as good a consensus. */
  lemma Resigned(lib: Library, text: string, now: int, sigs: map<string, string>)
    requires lib.Sound() && ParseBody(lib, text, now).Some? && sigs != map[]
    requires var body := ParseBody(lib, text, now).value.raw.value;
             forall fp :: fp in sigs ==> SignatureChecks(lib, body, fp, sigs[fp]) && Carried(sigs[fp])
    ensures var base := ParseBody(lib, text, now).value; var c := base.(signatures := sigs);
            && Printed(lib, c) && Canonical(lib, c) == c && Fresh(c, now) && CarriedSignatures(sigs)
            && Encodable(lib, c) && EncodedText(lib, c) == Document(base.raw.value, sigs)
  {
    hide SplitSignatures, ReadBody, D.Validate, D.Encoded, D.ValidThroughout, D.Fits, Split, D.FromParser,
      SignatureChecks, Carried, SignatureLines, Join, Ordered, Library.Sound, Library.Printable;
    AcceptedIsCanonical(lib, text, now);
    var base := ParseBody(lib, text, now).value;
    var c := base.(signatures := sigs);
    SameBody(lib, c, base);
    hide ParseBody, Body;
    assert Listed(lib, c) == Listed(lib, base);
  }

  /** A gathered set, written out, is accepted by the client parser with exactly the gathered signatures. */
  lemma GatheredEncodes(lib: Library, parts: set<string>, authorities: map<string, Key>, threshold: int, now: int,
                        base: Consensus, p: string, combined: map<string, string>)
    requires lib.Sound() && ValidAuthoritySet(lib, authorities, threshold) && |combined| >= threshold
    requires p in parts && ParsePartial(lib, p, now) == Some(base)
    requires Gathered(lib, parts, authorities, now, base.raw.value, combined)
    ensures var c := base.(signatures := combined);
            && Encoding(lib, c) == (if |Document(base.raw.value, combined)| > MAX_SIZE then None
                                    else Some(Document(base.raw.value, combined)))
            && (Encoding(lib, c).Some? ==> Parse(lib, Encoding(lib, c).value, authorities, threshold, now) == Some(c))
  {
    hide ParsePartial, ParseBody, SignatureChecks, Carried, Printed, Canonical, Encodable, EncodedText, Document, Parse,
      Gathered, CanonicalAuthorities, CarriedSignatures;
    PartialIsAccepted(lib, p, now);
    forall fp | fp in combined
      ensures fp in authorities && SignatureChecks(lib, base.raw.value, fp, combined[fp]) && Carried(combined[fp]) {
      SignerIsGood(lib, parts, authorities, now, base.raw.value, combined, fp);
    }
    assert combined != map[];
    Resigned(lib, p, now, combined);
    var c := base.(signatures := combined);
    assert combined.Keys * authorities.Keys == combined.Keys && |combined.Keys| == |combined|;
    if Encoding(lib, c).Some? {
      RoundTrip(lib, c, authorities, threshold, now);
    }
  }

  lemma SameBody(lib: Library, a: Consensus, b: Consensus)
    requires a.validAfter == b.validAfter && a.validUntil == b.validUntil && a.relays == b.relays
    ensures Body(lib, a) == Body(lib, b)
  {
  }

  lemma SignerIsGood(lib: Library, parts: set<string>, authorities: map<string, Key>, now: int, body: string,
                     combined: map<string, string>, fp: string)
    requires lib.Sound() && Gathered(lib, parts, authorities, now, body, combined) && fp in combined
    ensures fp in authorities && SignatureChecks(lib, body, fp, combined[fp]) && Carried(combined[fp])
  {
    hide ParsePartial, ParseBody, SignatureChecks, Carried, Printed, Canonical;
    var q :| q in parts && fp in Sigs(lib, q, now);
    PartialIsAccepted(lib, q, now);
    AcceptedIsCanonical(lib, q, now);
  }

  method CheckPart(lib: Library, part: string, authorities: map<string, Key>, now: int) returns (r: Option<Consensus>)
    ensures r == if GoodPart(lib, part, authorities, now) then ParsePartial(lib, part, now) else None
    ensures r.Some? ==> r.value.raw == Some(RawOf(lib, part, now)) && r.value.signatures == Sigs(lib, part, now)
  {
    hide Parse, SplitSignatures, CanonicalKey;
    r := ParsePartial(lib, part, now);
    if r.Some? && exists fp :: fp in r.value.signatures && fp !in authorities { return None; }
  }

  /** The aggregator, part by part; what it returns depends only on the set of parts it was given. */
  method MergeConsensus(lib: Library, parts: seq<string>, authorities: map<string, Key>, threshold: int, now: int)
    returns (r: Option<string>)
    requires lib.Sound()
    ensures r == MergeOf(lib, Members(parts), authorities, threshold, now)
  {
    hide ParsePartial, Gathered, Document, Encoding, Parse, IsUnion, MergeOf, Compatible, Library.Sound, ValidAuthoritySet;
    if parts == [] || !ValidAuthoritySet(lib, authorities, threshold) {
      NothingToMerge(lib, Members(parts), authorities, threshold, now);
      return None;
    }
    var first := CheckPart(lib, parts[0], authorities, now);
    assert parts[0] in Members(parts);
    if first.None? {
      BadPart(lib, Members(parts), authorities, threshold, now, parts[0]);
      return None;
    }
    var base := first.value;
    var body, combined: map<string, string>, n := base.raw.value, map[], 0;
    ghost var seen: set<string> := {};
    NothingGathered(lib, authorities, now, body);
    while n < |parts|
      invariant 0 <= n <= |parts| && (n > 0 ==> seen != {})
      invariant seen == Members(parts[..n])
      invariant Gathered(lib, seen, authorities, now, body, combined)
    {
      var p := parts[n];
      assert parts[..n + 1] == parts[..n] + [p];
      assert seen <= Members(parts) && p in Members(parts);
      assert Members(parts[..n + 1]) == seen + {p};
      var c := CheckPart(lib, p, authorities, now);
      var ok, all := false, combined;
      if c.Some? && c.value.raw.value == body {
        ok, all := AddSignatures(combined, c.value.signatures);
      }
      if !ok {
        Clash(lib, Members(parts), seen, authorities, now, body, combined, p);
        Incompatible(lib, Members(parts), authorities, threshold, now);
        return None;
      }
      GatherOne(lib, seen, authorities, now, body, combined, p);
      combined, n, seen := all, n + 1, seen + {p};
    }
    assert parts[..|parts|] == parts;
    r := WriteMerged(lib, parts, authorities, threshold, now, base, combined);
  }

  method WriteMerged(lib: Library, parts: seq<string>, authorities: map<string, Key>, threshold: int, now: int,
                     base: Consensus, combined: map<string, string>) returns (r: Option<string>)
    requires lib.Sound() && parts != [] && ValidAuthoritySet(lib, authorities, threshold)
    requires ParsePartial(lib, parts[0], now) == Some(base) && base.raw.Some?
    requires Gathered(lib, Members(parts), authorities, now, base.raw.value, combined)
    ensures r == MergeOf(lib, Members(parts), authorities, threshold, now)
  {
    hide Gathered, Document, Parse, IsUnion, MergeOf, Compatible, Library.Sound, ValidAuthoritySet, Encoding, ParsePartial;
    MergedValue(lib, parts, authorities, threshold, now, base, combined);
    if |combined| < threshold { return None; }
    GatheredEncodes(lib, Members(parts), authorities, threshold, now, base, parts[0], combined);
    var document := new ConsensusDocument(base.(signatures := combined));
    r := document.Encode(lib);
    if r.None? { return None; }
    var final := ParseConsensus(lib, r.value, authorities, threshold, now);
    if final.None? { return None; }
  }

  lemma MergedValue(lib: Library, parts: seq<string>, authorities: map<string, Key>, threshold: int, now: int,
                    base: Consensus, combined: map<string, string>)
    requires parts != [] && ValidAuthoritySet(lib, authorities, threshold) && ParsePartial(lib, parts[0], now) == Some(base)
    requires base.raw.Some? && Gathered(lib, Members(parts), authorities, now, base.raw.value, combined)
    ensures parts[0] in Members(parts)
    ensures var text := Document(base.raw.value, combined);
            MergeOf(lib, Members(parts), authorities, threshold, now) ==
            if |combined| < threshold || |text| > MAX_SIZE then None else Some(text)
  {
    hide Gathered, Document, IsUnion, MergeOf, Compatible, ValidAuthoritySet, ParsePartial;
    assert parts[0] in Members(parts) && RawOf(lib, parts[0], now) == base.raw.value;
    GatheredIsUnion(lib, Members(parts), authorities, now, base.raw.value, combined);
    MergeOfIs(lib, Members(parts), authorities, threshold, now, combined, parts[0]);
  }

  lemma NothingToMerge(lib: Library, parts: set<string>, authorities: map<string, Key>, threshold: int, now: int)
    requires parts == {} || !ValidAuthoritySet(lib, authorities, threshold)
    ensures MergeOf(lib, parts, authorities, threshold, now) == None
  {
  }

  lemma Incompatible(lib: Library, parts: set<string>, authorities: map<string, Key>, threshold: int, now: int)
    requires !Compatible(lib, parts, authorities, now)
    ensures MergeOf(lib, parts, authorities, threshold, now) == None
  {
  }

  lemma BadPart(lib: Library, parts: set<string>, authorities: map<string, Key>, threshold: int, now: int, p: string)
    requires p in parts && !GoodPart(lib, p, authorities, now)
    ensures MergeOf(lib, parts, authorities, threshold, now) == None
  {
    hide GoodPart, RawOf, Sigs;
  }

  lemma NothingGathered(lib: Library, authorities: map<string, Key>, now: int, body: string)
    ensures Gathered(lib, {}, authorities, now, body, map[])
  {
  }

  /**
   * What an aggregator hands out: clients accept it at the same threshold, it carries exactly the union of the parts'
   * signatures over their common body, and merging it alone gives it back.
   */
  lemma MergedIsAcceptedUnion(lib: Library, parts: set<string>, authorities: map<string, Key>, threshold: int, now: int,
                              p: string, sigs: map<string, string>)
    requires lib.Sound() && p in parts && IsUnion(lib, parts, now, sigs)
    requires MergeOf(lib, parts, authorities, threshold, now).Some?
    ensures var text := MergeOf(lib, parts, authorities, threshold, now).value;
            && Parse(lib, text, authorities, threshold, now) == Some(ParsePartial(lib, p, now).value.(signatures := sigs))
            && MergeOf(lib, {text}, authorities, threshold, now) == Some(text)
  {
    hide IsUnion, GoodPart, Gathered, Document, Parse, ParsePartial, ParseBody, Printed, Canonical, Encodable, EncodedText,
      SignatureChecks, Carried, CanonicalAuthorities;
    assert Compatible(lib, parts, authorities, now) && ValidAuthoritySet(lib, authorities, threshold);
    CompatibleIsGathered(lib, parts, authorities, now, p, sigs);
    MergeOfIs(lib, parts, authorities, threshold, now, sigs, p);
    hide Compatible, MergeOf;
    var text := MergeOf(lib, parts, authorities, threshold, now).value;
    PartOf(lib, parts, authorities, now, RawOf(lib, p, now), sigs, p);
    var base := ParsePartial(lib, p, now).value;
    GatheredEncodes(lib, parts, authorities, threshold, now, base, p, sigs);
    PartialIsAccepted(lib, p, now);
    forall fp | fp in sigs
      ensures fp in authorities && SignatureChecks(lib, base.raw.value, fp, sigs[fp]) && Carried(sigs[fp]) {
      SignerIsGood(lib, parts, authorities, now, base.raw.value, sigs, fp);
    }
    assert sigs != map[];
    Resigned(lib, p, now, sigs);
    RemergeIsIdentity(lib, text, authorities, threshold, now, base.(signatures := sigs));
  }

  lemma PartOf(lib: Library, parts: set<string>, authorities: map<string, Key>, now: int, body: string,
               combined: map<string, string>, p: string)
    requires Gathered(lib, parts, authorities, now, body, combined) && p in parts
    ensures ParsePartial(lib, p, now).Some? && ParsePartial(lib, p, now).value.raw == Some(body)
  {
    hide SplitSignatures, Parse, CanonicalKey;
    assert GoodPart(lib, p, authorities, now);
  }

  lemma CompatibleIsGathered(lib: Library, parts: set<string>, authorities: map<string, Key>, now: int,
                             p: string, sigs: map<string, string>)
    requires Compatible(lib, parts, authorities, now) && IsUnion(lib, parts, now, sigs) && p in parts
    ensures Gathered(lib, parts, authorities, now, RawOf(lib, p, now), sigs)
  {
    hide GoodPart, RawOf, Sigs;
    forall q, fp | q in parts && fp in Sigs(lib, q, now) ensures sigs[fp] == Sigs(lib, q, now)[fp] {
      var w :| w in parts && fp in Sigs(lib, w, now) && Sigs(lib, w, now)[fp] == sigs[fp];
    }
  }

  /** Read as a partial of its own signers, an encoded consensus is itself, while its window lasts. */
  lemma PartialReads(lib: Library, text: string, now: int, c: Consensus)
    requires Printed(lib, c) && CarriedSignatures(c.signatures) && Encoding(lib, c) == Some(text)
    ensures ParsePartial(lib, text, now) == if c.validAfter - 300 * SECOND <= now < c.validUntil then Some(Canonical(lib, c)) else None
  {
    hide SplitSignatures, Body, Validate, Printed, CarriedSignatures, Library.DecodeKey, Library.EncodeKey,
      Library.VerifySignature, Canonical, Parse, EncodedText;
    var sigs := c.signatures;
    EncodedSplits(lib, c);
    assert forall fp :: fp in sigs ==> CanonicalKey(lib, fp);
    hide Encodable, SignatureChecks;
    var named := map fp | fp in sigs && lib.DecodeKey(fp).Some? :: lib.DecodeKey(fp).value;
    assert named.Keys == sigs.Keys && |named| == |named.Keys| && sigs.Keys * named.Keys == sigs.Keys;
    assert sigs != map[] ==> sigs.Keys != {};
    RoundTrip(lib, c, named, |named|, now);
  }

  lemma SelfGathered(lib: Library, text: string, authorities: map<string, Key>, now: int, c: Consensus)
    requires ParsePartial(lib, text, now) == Some(c) && c.raw.Some? && forall fp :: fp in c.signatures ==> fp in authorities
    ensures Gathered(lib, {text}, authorities, now, c.raw.value, c.signatures)
  {
    hide ParsePartial;
    assert GoodPart(lib, text, authorities, now) && RawOf(lib, text, now) == c.raw.value;
    assert Sigs(lib, text, now) == c.signatures;
    hide GoodPart, RawOf, Sigs;
    assert text in {text};
  }

  lemma RemergeIsIdentity(lib: Library, text: string, authorities: map<string, Key>, threshold: int, now: int, c: Consensus)
    requires ValidAuthoritySet(lib, authorities, threshold) && |c.signatures| >= threshold
    requires Encoding(lib, c) == Some(text) && Printed(lib, c) && Canonical(lib, c) == c
    requires c.validAfter - 300 * SECOND <= now < c.validUntil
    requires CarriedSignatures(c.signatures) && forall fp :: fp in c.signatures ==> fp in authorities
    requires c.raw.Some? && text == Document(c.raw.value, c.signatures) && |text| <= MAX_SIZE
    ensures MergeOf(lib, {text}, authorities, threshold, now) == Some(text)
  {
    hide *;
    PartialReads(lib, text, now, c);
    SelfGathered(lib, text, authorities, now, c);
    SingleMember(text);
    MergedValue(lib, [text], authorities, threshold, now, c, c.signatures);
  }

  lemma SingleMember(text: string)
    ensures Members([text]) == {text}
  {
  }
}
