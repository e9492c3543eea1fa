/** The main results about consensus documents. */
module ConsensusRoundTrip {
  import opened Prelude
  import opened Text
  import opened Library
  import D = Descriptors
  import opened Consensuses
  import opened ConsensusLaws

  /** Authorities indexed by the printed form of their own keys, as AuthoritySet builds them. */
  predicate CanonicalAuthorities(lib: Library, authorities: map<string, Key>) {
    forall fp :: fp in authorities ==> lib.EncodeKey(authorities[fp]) == fp
  }

  predicate CarriedSignatures(sigs: map<string, string>) {
    forall fp :: fp in sigs ==> Carried(sigs[fp])
  }

  // ---- printing, then parsing

  lemma {:induction false} LinesFit(lines: seq<string>)
    ensures forall l :: l in lines ==> |l| < |Join(lines)|
  {
    if lines != [] {
      LinesFit(lines[1..]);
    }
  }

  lemma BodyFits(lib: Library, c: Consensus)
    requires Printed(lib, c) && |Body(lib, c)| <= MAX_SIZE
    ensures D.Fits(Split(Body(lib, c)), LINE_LIMIT)
  {
    var lines := BodyLines(lib, c);
    BodyIsBodyLines(lib, c);
    assert AllOneLine(lines) by {
      assert forall i :: 0 <= i < |lines| ==> lines[i] in lines;
    }
    PlainSplit(lines);
    LinesFit(lines);
    JoinEnds(lines);
    hide BodyLines, Join, Split, BodyLine, Validate;
  }

  /** The consensus as its own body presents it: same window and relays, in canonical order. */
  ghost function Canonical(lib: Library, c: Consensus): Consensus
    requires Printed(lib, c)
  {
    Consensus(c.validAfter, c.validUntil, Listed(lib, c), c.signatures, Some(Body(lib, c)))
  }

  lemma CanonicalBody(lib: Library, c: Consensus)
    requires Printed(lib, c)
    ensures RelaySet(Canonical(lib, c).relays) == RelaySet(c.relays)
    ensures Validate(lib, Canonical(lib, c)) && Body(lib, Canonical(lib, c)) == Body(lib, c)
  {
    hide Sort, ParseAll, D.Parse, D.FromParser, D.Encoded, D.Validate, D.ValidThroughout, Library.Sound, Library.Printable;
    var es, k := Sort(EncodedAll(c.relays)), Canonical(lib, c);
    SortedRelays(lib, c.relays);
    SortCorrect(EncodedAll(c.relays));
    SortSorted(es);
    assert Heading(lib, k) == Heading(lib, c);
    forall d | d in k.relays ensures d in c.relays {
      assert d in RelaySet(k.relays);
    }
  }

  lemma CanonicalSignaturesReadable(lib: Library, c: Consensus)
    requires lib.Sound() && Encodable(lib, c) && CarriedSignatures(c.signatures)
    ensures forall fp :: fp in c.signatures ==> NoSpace(fp) && fp != "" && Carried(c.signatures[fp])
  {
    forall fp | fp in c.signatures ensures NoSpace(fp) && fp != "" {
      assert CanonicalKey(lib, fp);
      lib.KeyText(lib.DecodeKey(fp).value);
    }
  }

  lemma EncodedSplits(lib: Library, c: Consensus)
    requires Printed(lib, c) && Encodable(lib, c) && CarriedSignatures(c.signatures)
    ensures SplitSignatures(EncodedText(lib, c)) == Some((Body(lib, c), c.signatures))
  {
    assert BodyLines(lib, c) != [];
    hide SplitSignatures, Join, Ordered, SignatureLines, D.Validate, D.FromParser, BodyLine, BodyLines;
    CanonicalSignaturesReadable(lib, c);
    BodyIsBodyLines(lib, c);
    hide Encodable, Printed, Carried, NoSpace;
    SplitPrinted(BodyLines(lib, c), c.signatures);
  }

  lemma ParseBodyFrom(lib: Library, text: string, now: int, body: string, sigs: map<string, string>, r: Reading, c: Consensus)
    requires SplitSignatures(text) == Some((body, sigs)) && ReadBody(lib, body) == Some(r)
    requires r.after.Some? && r.until.Some?
    requires c == Consensus(r.after.value, r.until.value, r.relays, sigs, Some(body))
    requires Validate(lib, c) && body == Body(lib, c)
    ensures ParseBody(lib, text, now) == if Fresh(c, now) then Some(c) else None
  {
    hide SplitSignatures, ReadBody, Validate, Body, Fresh;
  }

  /**
   * A client reads an encoded consensus as exactly what was encoded, from five minutes before its window opens until it
   * closes, and refuses it at every other instant.
   */
  lemma EncodedIsRead(lib: Library, c: Consensus, now: int)
    requires Printed(lib, c) && Encoding(lib, c).Some? && CarriedSignatures(c.signatures)
    ensures ParseBody(lib, Encoding(lib, c).value, now) ==
            if c.validAfter - 300 * SECOND <= now < c.validUntil then Some(Canonical(lib, c)) else None
  {
    hide SplitSignatures, ReadBody, Body, Validate, SignatureLines, Join, Ordered, Listed, ParseBody, D.FromParser, NoSpace;
    EncodedSplits(lib, c);
    BodyFits(lib, c);
    ReadPrintedBody(lib, c);
    CanonicalBody(lib, c);
    var k := Canonical(lib, c);
    hide Encodable, Printed, CarriedSignatures;
    ParseBodyFrom(lib, Encoding(lib, c).value, now, Body(lib, c), c.signatures,
      Reading(false, Some(c.validAfter), Some(c.validUntil), Listed(lib, c)), k);
  }

  lemma EqualKeyTexts(lib: Library, a: Key, b: Key)
    requires lib.Sound() && lib.EncodeKey(a) == lib.EncodeKey(b)
    ensures a == b
  {
    assert lib.EncodeKey(a)[|KEY_PREFIX|..] == lib.encode64(a) && lib.EncodeKey(b)[|KEY_PREFIX|..] == lib.encode64(b);
    assert lib.decode64(lib.encode64(a)) == Some(a) && lib.decode64(lib.encode64(b)) == Some(b);
  }

  lemma KnownSignersVouch(lib: Library, c: Consensus, authorities: map<string, Key>)
    requires lib.Sound() && Encodable(lib, c) && CanonicalAuthorities(lib, authorities)
    ensures Vouching(lib, authorities, Body(lib, c), c.signatures) == c.signatures.Keys * authorities.Keys
  {
    forall fp | fp in c.signatures && fp in authorities
      ensures lib.VerifySignature(authorities[fp], Body(lib, c), c.signatures[fp]) {
      assert SignatureChecks(lib, Body(lib, c), fp, c.signatures[fp]);
      EqualKeyTexts(lib, authorities[fp], lib.DecodeKey(fp).value);
    }
  }

  /**
   * Printer and parser undo each other: a client accepts what Encode writes exactly within its window and when enough of its
   * signers are authorities it knows, and then it holds the same window, relays, signatures and body.
   */
  lemma RoundTrip(lib: Library, c: Consensus, authorities: map<string, Key>, threshold: int, now: int)
    requires Printed(lib, c) && Encoding(lib, c).Some? && CarriedSignatures(c.signatures)
    requires CanonicalAuthorities(lib, authorities)
    ensures var r := Parse(lib, Encoding(lib, c).value, authorities, threshold, now);
            && (r.Some? <==> c.validAfter - 300 * SECOND <= now < c.validUntil &&
                             1 <= threshold <= |c.signatures.Keys * authorities.Keys|)
            && (r.Some? ==> r.value == Canonical(lib, c) && RelaySet(r.value.relays) == RelaySet(c.relays))
  {
    hide ParseBody, Validate, Vouching, Body, SignatureLines, Join, Ordered, D.FromParser, RelaySet, Listed;
    EncodedIsRead(lib, c, now);
    KnownSignersVouch(lib, c, authorities);
    CanonicalBody(lib, c);
    hide Encoding, Printed, CarriedSignatures, CanonicalAuthorities;
    SubsetSize(c.signatures.Keys * authorities.Keys, authorities.Keys);
    assert |authorities.Keys| == |authorities|;
  }

  // ---- what parsing establishes

  lemma {:induction false} ReadLinesKeepsWindow(lib: Library, lines: seq<string>, r: Reading)
    requires ReadLines(lib, lines, r).Some? && !r.first
    ensures r.after.Some? ==> ReadLines(lib, lines, r).value.after == r.after
    ensures r.until.Some? ==> ReadLines(lib, lines, r).value.until == r.until
    decreases |lines|
  {
    if lines != [] {
      var next := ReadLine(lib, lines[0], r).value;
      assert !next.first && (r.after.Some? ==> next.after == r.after) && (r.until.Some? ==> next.until == r.until) by {
        hide ReadRelay, Cut, TrimSpace;
      }
      hide ReadLine;
      ReadLinesKeepsWindow(lib, lines[1..], next);
    }
  }

  lemma {:induction false} ReadLinesParsesRelays(lib: Library, lines: seq<string>, r: Reading)
    requires ReadLines(lib, lines, r).Some? && AllFromParser(lib, r.relays)
    ensures AllFromParser(lib, ReadLines(lib, lines, r).value.relays)
    decreases |lines|
  {
    if lines != [] {
      var next := ReadLine(lib, lines[0], r).value;
      ReadLineParsesRelays(lib, lines[0], r);
      hide ReadLine, AllFromParser;
      ReadLinesParsesRelays(lib, lines[1..], next);
    }
  }

  lemma ReadLineParsesRelays(lib: Library, line: string, r: Reading)
    requires ReadLine(lib, line, r).Some? && AllFromParser(lib, r.relays)
    ensures AllFromParser(lib, ReadLine(lib, line, r).value.relays)
  {
    hide D.Parse, Cut, TrimSpace;
    var next := ReadLine(lib, line, r).value;
    if next.relays != r.relays {
      var d := next.relays[|r.relays|];
      var (length, encoded) := Cut(TrimSpace(Cut(line, ' ').value.1), ' ').value;
      assert D.Parse(lib, lib.decode64(encoded).value) == Some(d);
      assert D.FromParser(lib, d);
      hide ReadLine, D.FromParser;
      assert next.relays == r.relays + [d];
    }
  }

  /** The heading of an accepted body fixes the window it prints. */
  lemma AcceptedWindow(lib: Library, c: Consensus, lines: seq<string>)
    requires lib.Sound() && ReadLines(lib, Heading(lib, c) + lines, START).Some?
    ensures var r := ReadLines(lib, Heading(lib, c) + lines, START).value;
            r.after == lib.parseTime(lib.formatTime(c.validAfter)) && r.until == lib.parseTime(lib.formatTime(c.validUntil))
  {
    var h, a, u := Heading(lib, c), lib.formatTime(c.validAfter), lib.formatTime(c.validUntil);
    WordIsTidy(a);
    WordIsTidy(u);
    CutAt("valid-after", ' ', a);
    CutAt("valid-until", ' ', u);
    assert h[1] == "valid-after" + [' '] + a && h[2] == "valid-until" + [' '] + u;
    var r0 := START.(first := false);
    assert h + lines == [h[0]] + ([h[1]] + ([h[2]] + lines));
    hide Heading, Cut, TrimSpace, NoSpace, Tidy, Library.Sound;
    ReadOne(lib, h[0], [h[1]] + ([h[2]] + lines), START);
    StepHead(lib, h[1], [h[2]] + lines, r0);
    assert ReadLine(lib, h[1], r0) == ReadField(lib, "valid-after", a, r0);
    var r1 := r0.(after := lib.parseTime(a));
    assert ReadLine(lib, h[1], r0) == Some(r1);
    StepHead(lib, h[2], lines, r1);
    assert ReadLine(lib, h[2], r1) == ReadField(lib, "valid-until", u, r1);
    ReadLinesKeepsWindow(lib, lines, r1.(until := lib.parseTime(u)));
  }

  lemma StepHead(lib: Library, line: string, rest: seq<string>, r: Reading)
    requires ReadLines(lib, [line] + rest, r).Some?
    ensures ReadLine(lib, line, r).Some?
    ensures ReadLines(lib, [line] + rest, r) == ReadLines(lib, rest, ReadLine(lib, line, r).value)
  {
    assert ([line] + rest)[1..] == rest;
    hide ReadLine;
  }

  lemma {:induction false} ReadSignaturesCarried(lines: seq<string>, sigs: map<string, string>)
    requires AllOneLine(lines) && CarriedSignatures(sigs) && ReadSignatures(lines, sigs).Some?
    ensures CarriedSignatures(ReadSignatures(lines, sigs).value)
    decreases |lines|
  {
    if lines != [] {
      ReadSignatureCarried(lines[0], sigs);
      hide ReadSignature, Carried;
      ReadSignaturesCarried(lines[1..], ReadSignature(lines[0], sigs).value);
    }
  }

  lemma ReadSignatureCarried(line: string, sigs: map<string, string>)
    requires OneLine(line) && CarriedSignatures(sigs) && ReadSignature(line, sigs).Some?
    ensures CarriedSignatures(ReadSignature(line, sigs).value)
  {
    var t := TrimSpace(line);
    TrimSpaceShape(line);
    if t != "" {
      TrimSpaceShape(t[|D.SIGNATURE|..]);
      hide TrimSpace, Cut, Carried;
      var rest := TrimSpace(t[|D.SIGNATURE|..]);
      var (fp, sig) := Cut(rest, ' ').value;
      assert Carried(sig) by {
        assert OneLine(rest) && rest == fp + [' '] + sig;

      }
    }
  }

  lemma AcceptedWindowPrints(lib: Library, c: Consensus, r: Reading)
    requires lib.Sound() && (forall d :: d in c.relays ==> D.Encoded(d) != "") && ReadBody(lib, Body(lib, c)) == Some(r)
    requires r.after == Some(c.validAfter) && r.until == Some(c.validUntil)
    ensures lib.Printable(c.validAfter) && lib.Printable(c.validUntil)
  {
    BodyShape(lib, c);
    hide Body, Lines, Split, D.Fits, D.Encoded, RelayLines, Heading, EncodedAll, Sort;
    AcceptedWindow(lib, c, RelayLines(lib, Sort(EncodedAll(c.relays))));
  }

  lemma SplitCarried(text: string)
    requires SplitSignatures(text).Some?
    ensures CarriedSignatures(SplitSignatures(text).value.1)
  {
    var i := Index(text, D.MARK).value;
    ReadSignaturesCarried(Split(text[i + 1..]), map[]);
  }

  /** Whatever a client accepts is a consensus the other laws speak of, held in canonical form. */
  lemma AcceptedIsCanonical(lib: Library, text: string, now: int)
    requires lib.Sound() && ParseBody(lib, text, now).Some?
    ensures var c := ParseBody(lib, text, now).value;
            && Printed(lib, c) && CarriedSignatures(c.signatures) && Fresh(c, now)
            && c == Canonical(lib, c) && D.Fits(Split(Body(lib, c)), LINE_LIMIT)
  {
    var c := ParseBody(lib, text, now).value;
    var (body, sigs) := SplitSignatures(text).value;
    var r := ReadBody(lib, body).value;
    SplitCarried(text);
    ReadLinesParsesRelays(lib, Lines(Split(body)), START);
    hide SplitSignatures, ReadLines, Body, D.Validate, D.ValidThroughout, Lines, D.Encoded, D.FromParser, Listed;
    AcceptedWindowPrints(lib, c, r);
    ReadPrintedBody(lib, c);
  }

  lemma EqualSetsPrintAlike(lib: Library, a: Consensus, b: Consensus)
    requires Printed(lib, a) && Printed(lib, b)
    requires a.validAfter == b.validAfter && a.validUntil == b.validUntil && RelaySet(a.relays) == RelaySet(b.relays)
    ensures Body(lib, a) == Body(lib, b)
  {
    var xs, ys := EncodedAll(a.relays), EncodedAll(b.relays);
    SortedRelays(lib, a.relays);
    SortedRelays(lib, b.relays);
    hide D.Encoded, ParseAll, D.Parse, Validate, D.FromParser, Sort;
    forall e ensures e in xs <==> e in ys {
      EncodedMember(a.relays, b.relays, e);
      EncodedMember(b.relays, a.relays, e);
    }
    SameMembersSameSort(xs, ys);
  }

  lemma EncodedMember(from: seq<D.Descriptor>, to: seq<D.Descriptor>, e: string)
    requires RelaySet(from) == RelaySet(to)
    ensures e in EncodedAll(from) ==> e in EncodedAll(to)
  {
    hide D.Encoded;
    if e in EncodedAll(from) {
      var i :| 0 <= i < |from| && EncodedAll(from)[i] == e;
      assert from[i] in RelaySet(to);
      var j :| 0 <= j < |to| && to[j] == from[i];
      assert EncodedAll(to)[j] == e;
    }
  }

  /** A body says exactly which window and which relays were signed: equal bodies, equal meaning, and back. */
  lemma BodyDetermines(lib: Library, a: Consensus, b: Consensus)
    requires Printed(lib, a) && Printed(lib, b) && D.Fits(Split(Body(lib, a)), LINE_LIMIT)
    ensures Body(lib, a) == Body(lib, b) <==>
            a.validAfter == b.validAfter && a.validUntil == b.validUntil && RelaySet(a.relays) == RelaySet(b.relays)
  {
    if Body(lib, a) == Body(lib, b) {
      ReadPrintedBody(lib, a);
      ReadPrintedBody(lib, b);
      CanonicalBody(lib, a);
      CanonicalBody(lib, b);
      hide ReadBody, Printed, Body, Listed;
    } else if a.validAfter == b.validAfter && a.validUntil == b.validUntil && RelaySet(a.relays) == RelaySet(b.relays) {
      EqualSetsPrintAlike(lib, a, b);
    }
  }

  // ---- what acceptance means

  /** The text holds 64 signature bytes that this key made of this message. */
  ghost predicate Signs(lib: Library, key: Key, message: string, sig: string) {
    exists bytes :: lib.decode64(TrimSpace(sig)) == Some(bytes) && |bytes| == 64 && lib.edVerify(key, message, bytes)
  }

  /**
   * What acceptance promises a client, whatever text it was shown: the clock is inside the window, give or take five minutes
   * at its start; at least a threshold of its own authorities made the signatures over exactly these bytes; and every relay
   * signed itself, under an identity no other relay has, for the whole of the window.
   */
  lemma AcceptedMeans(lib: Library, text: string, authorities: map<string, Key>, threshold: int, now: int)
    requires lib.Sound() && Parse(lib, text, authorities, threshold, now).Some?
    ensures var c := Parse(lib, text, authorities, threshold, now).value;
      && c.validAfter < c.validUntil && c.validAfter - 300 * SECOND <= now < c.validUntil
      && c.raw.Some? && c.raw.value <= text && HasPrefix(text[|c.raw.value|..], "signature ")
      && (exists signers: set<string> :: 1 <= threshold <= |signers| &&
            forall fp :: fp in signers ==>
              fp in c.signatures && fp in authorities && Signs(lib, authorities[fp], c.raw.value, c.signatures[fp]))
      && (forall d :: d in c.relays ==>
            D.SelfSigned(lib, d) && d.published - 300 * SECOND <= c.validAfter && c.validUntil <= d.expires)
      && DistinctIdentities(c.relays)
  {
    var c := Parse(lib, text, authorities, threshold, now).value;
    var signers := Vouching(lib, authorities, c.raw.value, c.signatures);
    AcceptedIsCanonical(lib, text, now);
    BodyEndsAtMark(text);
    assert forall fp :: fp in signers ==> Signs(lib, authorities[fp], c.raw.value, c.signatures[fp]);
    hide ReadBody, SplitSignatures, Body, D.Fits, Split, Listed, Library.VerifySignature, Signs, Vouching, Library.Sound, Library.Printable;
    assert |signers| >= threshold;
    forall d | d in c.relays
      ensures D.SelfSigned(lib, d) && d.published - 300 * SECOND <= c.validAfter && c.validUntil <= d.expires
    {
      assert D.FromParser(lib, d);
      var own :| D.Parse(lib, own) == Some(d);
      hide D.Validate, D.Encoded, D.Parse, D.SelfSigned, ParseBody;
      D.ParsedMeans(lib, own);
    }
  }

  lemma BodyEndsAtMark(text: string)
    requires SplitSignatures(text).Some?
    ensures var body := SplitSignatures(text).value.0; body <= text && HasPrefix(text[|body|..], "signature ")
  {
    var i := Index(text, D.MARK).value;
    assert text[i + 1..i + |D.MARK|] == text[i..i + |D.MARK|][1..] == "signature ";
    assert text[i + 1..][..10] == text[i + 1..i + 11];
  }

  // ---- nothing is passed over

  /** The lines that are not blank. */
  function NonBlank(lines: seq<string>): seq<string> {
    if lines == [] then []
    else (if TrimSpace(lines[0]) == "" then [] else [TrimSpace(lines[0])]) + NonBlank(lines[1..])
  }

  /** This line names this authority and carries this signature. */
  ghost predicate Names(line: string, fp: string, sig: string) {
    exists rest :: line == "signature " + rest && TrimSpace(rest) == fp + " " + sig
  }

  lemma {:induction false} ReadSignaturesCount(lines: seq<string>, sigs: map<string, string>)
    requires ReadSignatures(lines, sigs).Some?
    ensures var all := ReadSignatures(lines, sigs).value;
      && |all| == |sigs| + |NonBlank(lines)|
      && (forall fp :: fp in sigs ==> fp in all && all[fp] == sigs[fp])
      && (forall line :: line in NonBlank(lines) ==> exists fp :: fp in all && Names(line, fp, all[fp]))
    decreases |lines|
  {
    if lines != [] {
      var next := ReadSignature(lines[0], sigs).value;
      SignatureNamed(lines[0], sigs);
      hide ReadSignature, TrimSpace, Names;
      ReadSignaturesCount(lines[1..], next);
    }
  }

  lemma SignatureNamed(line: string, sigs: map<string, string>)
    requires ReadSignature(line, sigs).Some?
    ensures var next := ReadSignature(line, sigs).value;
      if TrimSpace(line) == "" then next == sigs
      else |next| == |sigs| + 1 && exists fp :: fp in next && Names(TrimSpace(line), fp, next[fp]) && fp !in sigs && next == sigs[fp := next[fp]]
  {
    var t := TrimSpace(line);
    if t != "" {
      var rest := t[|D.SIGNATURE|..];
      var (fp, sig) := Cut(TrimSpace(rest), ' ').value;
      assert t == "signature " + rest;
      assert [' '] == " ";
      assert Names(t, fp, sig);
      var next := sigs[fp := sig];
      assert next.Keys == sigs.Keys + {fp} && |next.Keys| == |next| && |sigs.Keys| == |sigs|;
    }
  }

  /**
   * Nothing after the body is passed over: there are exactly as many signatures as lines that are not blank, each line names
   * one of them, so a stray line or a second signature of one authority has the document refused.
   */
  lemma EveryLineIsASignature(text: string)
    requires SplitSignatures(text).Some?
    ensures var (body, sigs) := SplitSignatures(text).value;
      var lines := NonBlank(Split(text[|body|..]));
      body <= text && |lines| == |sigs| > 0 && forall line :: line in lines ==> exists fp :: fp in sigs && Names(line, fp, sigs[fp])
  {
    var (body, sigs) := SplitSignatures(text).value;
    hide ReadSignatures, NonBlank, Names;
    ReadSignaturesCount(Split(text[|body|..]), map[]);
    assert sigs != map[] ==> sigs.Keys != {};
    assert |sigs.Keys| == |sigs|;
  }
}
