/** The relay list several authorities sign: its canonical body, its strict parser, its encoding. */
module Consensuses {
  import opened Prelude
  import opened Text
  import opened Library
  import D = Descriptors

  const VERSION: string := "osanwe-consensus-1"
  const MAX_SIZE: nat := 8_388_608
  const LINE_LIMIT: nat := 8_388_608

  datatype Consensus = Consensus(validAfter: int, validUntil: int, relays: seq<D.Descriptor>,
                                 signatures: map<string, string>, raw: Option<string>)

  function EncodedAll(relays: seq<D.Descriptor>): (es: seq<string>)
    ensures |es| == |relays| && forall i :: 0 <= i < |es| ==> es[i] == D.Encoded(relays[i])
  {
    seq(|relays|, i requires 0 <= i < |relays| => D.Encoded(relays[i]))
  }

  function RelayLine(lib: Library, encoded: string): string {
    "relay " + lib.itoa(|lib.encode64(encoded)|) + " " + lib.encode64(encoded)
  }

  function RelayLines(lib: Library, es: seq<string>): seq<string> {
    if es == [] then [] else [RelayLine(lib, es[0])] + RelayLines(lib, es[1..])
  }

  function Heading(lib: Library, c: Consensus): seq<string> {
    [VERSION, "valid-after " + lib.formatTime(c.validAfter), "valid-until " + lib.formatTime(c.validUntil)]
  }

  function BodyLines(lib: Library, c: Consensus): seq<string> {
    Heading(lib, c) + RelayLines(lib, Sort(EncodedAll(c.relays)))
  }

  /** The signed portion. It is only ever built from relays that Validate has found signed. */
  function Body(lib: Library, c: Consensus): string {
    Join(BodyLines(lib, c))
  }

  predicate Fresh(c: Consensus, now: int) {
    now >= c.validAfter - D.CLOCK_SKEW && now < c.validUntil
  }

  predicate DistinctIdentities(relays: seq<D.Descriptor>) {
    forall i, j :: 0 <= i < j < |relays| ==> relays[i].identity != relays[j].identity
  }

  predicate Validate(lib: Library, c: Consensus) {
    && c.validAfter != 0 && c.validUntil != 0 && c.validUntil > c.validAfter
    && (forall d :: d in c.relays ==>
          D.Encoded(d) != "" && D.Validate(lib, d) && D.ValidThroughout(d, c.validAfter, c.validUntil))
    && DistinctIdentities(c.relays)
  }

  // ---- parsing

  datatype Reading = Reading(first: bool, after: Option<int>, until: Option<int>, relays: seq<D.Descriptor>)

  const START: Reading := Reading(true, None, None, [])

  function ReadRelay(lib: Library, value: string): Option<D.Descriptor> {
    match Cut(value, ' ')
    case None => None
    case Some((length, encoded)) =>
      if lib.atoi(length) != Some(|encoded|) then None
      else
        match lib.decode64(encoded)
        case None => None
        case Some(text) => D.Parse(lib, text)
  }

  function ReadField(lib: Library, key: string, value: string, r: Reading): Option<Reading> {
    if key == "valid-after" then
      (if r.after.None? && lib.parseTime(value).Some? then Some(r.(after := lib.parseTime(value))) else None)
    else if key == "valid-until" then
      (if r.until.None? && lib.parseTime(value).Some? then Some(r.(until := lib.parseTime(value))) else None)
    else if key == "relay" then
      (match ReadRelay(lib, value)
       case None => None
       case Some(d) => Some(r.(relays := r.relays + [d])))
    else None
  }

  function ReadLine(lib: Library, line: string, r: Reading): Option<Reading> {
    if r.first then (if line == VERSION then Some(r.(first := false)) else None)
    else
      match Cut(line, ' ')
      case None => None
      case Some((key, value)) => ReadField(lib, key, TrimSpace(value), r)
  }

  function ReadLines(lib: Library, lines: seq<string>, r: Reading): Option<Reading> {
    if lines == [] then Some(r)
    else
      match ReadLine(lib, lines[0], r)
      case None => None
      case Some(next) => ReadLines(lib, lines[1..], next)
  }

  /** The window and relays a body states, before any judgement about them. */
  function ReadBody(lib: Library, body: string): Option<Reading> {
    if !D.Fits(Split(body), LINE_LIMIT) then None
    else
      match ReadLines(lib, Lines(Split(body)), START)
      case None => None
      case Some(r) => if r.first || r.after.None? || r.until.None? then None else Some(r)
  }

  function ReadSignature(line: string, sigs: map<string, string>): Option<map<string, string>> {
    var t := TrimSpace(line);
    if t == "" then Some(sigs)
    else if !HasPrefix(t, D.SIGNATURE) then None
    else
      match Cut(TrimSpace(t[|D.SIGNATURE|..]), ' ')
      case None => None
      case Some((fp, sig)) => if fp == "" || sig == "" || fp in sigs then None else Some(sigs[fp := sig])
  }

  function ReadSignatures(lines: seq<string>, sigs: map<string, string>): Option<map<string, string>> {
    if lines == [] then Some(sigs)
    else
      match ReadSignature(lines[0], sigs)
      case None => None
      case Some(next) => ReadSignatures(lines[1..], next)
  }

  /** The body and the signatures, one per authority, that follow it. */
  function SplitSignatures(text: string): Option<(string, map<string, string>)> {
    match Index(text, D.MARK)
    case None => None
    case Some(i) =>
      match ReadSignatures(Split(text[i + 1..]), map[])
      case None => None
      case Some(sigs) => if sigs == map[] then None else Some((text[..i + 1], sigs))
  }

  /** The known authorities whose signature over the body checks. */
  function Vouching(lib: Library, authorities: map<string, Key>, body: string, sigs: map<string, string>): set<string> {
    set fp | fp in sigs && fp in authorities && lib.VerifySignature(authorities[fp], body, sigs[fp])
  }

  /** What a client accepts, before counting signatures. */
  function ParseBody(lib: Library, text: string, now: int): (r: Option<Consensus>)
    ensures r.Some? ==> r.value.raw.Some?
  {
    match SplitSignatures(text)
    case None => None
    case Some((body, sigs)) =>
      match ReadBody(lib, body)
      case None => None
      case Some(r) =>
        var c := Consensus(r.after.value, r.until.value, r.relays, sigs, Some(body));
        if Validate(lib, c) && body == Body(lib, c) && Fresh(c, now) then Some(c) else None
  }

  function Parse(lib: Library, text: string, authorities: map<string, Key>, threshold: int, now: int): (r: Option<Consensus>)
    ensures r.Some? ==> r.value.raw.Some?
  {
    if threshold < 1 || |authorities| < threshold then None
    else
      match ParseBody(lib, text, now)
      case None => None
      case Some(c) => if |Vouching(lib, authorities, c.raw.value, c.signatures)| < threshold then None else Some(c)
  }

  // ---- encoding

  predicate CanonicalKey(lib: Library, fp: string) {
    lib.DecodeKey(fp).Some? && lib.EncodeKey(lib.DecodeKey(fp).value) == fp
  }

  predicate SignatureChecks(lib: Library, body: string, fp: string, sig: string) {
    CanonicalKey(lib, fp) && lib.VerifySignature(lib.DecodeKey(fp).value, body, sig)
  }

  function SignatureLine(fp: string, sig: string): string {
    D.SIGNATURE + fp + " " + sig
  }

  function SignatureLines(fps: seq<string>, sigs: map<string, string>): seq<string>
    requires forall fp :: fp in fps ==> fp in sigs
  {
    if fps == [] then [] else [SignatureLine(fps[0], sigs[fps[0]])] + SignatureLines(fps[1..], sigs)
  }

  ghost function Pick(s: set<string>): (x: string)
    requires s != {}
    ensures x in s
  {
    var x :| x in s; x
  }

  lemma SignatureLinesNext(fps: seq<string>, n: nat, sigs: map<string, string>, out: string)
    requires n < |fps| && forall fp :: fp in fps ==> fp in sigs
    ensures out + Join(SignatureLines(fps[n..], sigs))
         == out + (SignatureLine(fps[n], sigs[fps[n]]) + "\n") + Join(SignatureLines(fps[n + 1..], sigs))
  {
    assert fps[n..][1..] == fps[n + 1..];
    var rest := SignatureLines(fps[n + 1..], sigs);
    assert ([SignatureLine(fps[n], sigs[fps[n]])] + rest)[1..] == rest;
  }

  /** The members of a set in byte order. */
  ghost function Ordered(fps: set<string>): seq<string> {
    if fps == {} then [] else Insert(Pick(fps), Ordered(fps - {Pick(fps)}))
  }

  lemma {:induction false} OrderedCorrect(fps: set<string>)
    ensures Sorted(Ordered(fps)) && multiset(Ordered(fps)) == multiset(fps)
  {
    if fps != {} {
      var fp := Pick(fps);
      OrderedCorrect(fps - {fp});
      InsertSorted(fp, Ordered(fps - {fp}));
      assert fps == (fps - {fp}) + {fp};
    }
  }

  lemma OrderedMembers(fps: set<string>)
    ensures forall fp :: fp in Ordered(fps) <==> fp in fps
  {
    OrderedCorrect(fps);
    forall fp ensures fp in Ordered(fps) <==> fp in fps {
      assert fp in Ordered(fps) <==> fp in multiset(Ordered(fps));
      assert fp in multiset(fps) <==> fp in fps;
    }
  }

  ghost predicate Encodable(lib: Library, c: Consensus) {
    && c.signatures != map[] && Validate(lib, c) && (c.raw == None || c.raw == Some(Body(lib, c)))
    && (forall fp :: fp in c.signatures ==> SignatureChecks(lib, Body(lib, c), fp, c.signatures[fp]))
  }

  ghost function EncodedText(lib: Library, c: Consensus): string {
    OrderedMembers(c.signatures.Keys);
    Body(lib, c) + Join(SignatureLines(Ordered(c.signatures.Keys), c.signatures))
  }

  /** The document with all its signatures, or None when the source refuses to write it. */
  ghost function Encoding(lib: Library, c: Consensus): Option<string> {
    if Encodable(lib, c) && |EncodedText(lib, c)| <= MAX_SIZE then Some(EncodedText(lib, c)) else None
  }

  /** Adding one authority's signature. */
  function SignWith(lib: Library, c: Consensus, id: Option<Identity>): Option<Consensus> {
    if id.None? || |id.value.pub| != 32 || !Validate(lib, c) || (c.raw.Some? && c.raw.value != Body(lib, c)) then None
    else
      var body, fp := Body(lib, c), lib.EncodeKey(id.value.pub);
      Some(c.(raw := Some(body), signatures := c.signatures[fp := lib.encode64(id.value.sign(body))]))
  }

  // ---- the code that fills these in

  class ConsensusDocument {
    var validAfter: int
    var validUntil: int
    var relays: seq<D.Descriptor>
    var signatures: map<string, string>
    var raw: Option<string>

    constructor (c: Consensus)
      ensures View() == c
    {
      validAfter, validUntil, relays, signatures, raw := c.validAfter, c.validUntil, c.relays, c.signatures, c.raw;
    }

    function View(): Consensus
      reads this
    {
      Consensus(validAfter, validUntil, relays, signatures, raw)
    }

    method Sign(lib: Library, id: Option<Identity>) returns (ok: bool)
      modifies this`raw, this`signatures
      ensures ok <==> SignWith(lib, old(View()), id).Some?
      ensures View() == if ok then SignWith(lib, old(View()), id).value else old(View())
    {
      if id.None? || |id.value.pub| != 32 { return false; }
      if !Validate(lib, View()) { return false; }
      var body := Body(lib, View());
      if raw.Some? && raw.value != body { return false; }
      raw := Some(body);
      signatures := signatures[lib.EncodeKey(id.value.pub) := lib.encode64(id.value.sign(body))];
      return true;
    }

    method Encode(lib: Library) returns (r: Option<string>)
      ensures r == Encoding(lib, View())
    {
      hide Validate, Body, SignatureChecks, SignatureLines, Join;
      if signatures == map[] || !Validate(lib, View()) { return None; }
      var body := Body(lib, View());
      if raw.Some? && raw.value != body { return None; }
      var fps := SortedFingerprints();
      r := AppendSignatures(lib, body, fps);
      OrderedMembers(signatures.Keys);
      if r.Some? && |r.value| > MAX_SIZE { return None; }
    }

    method AppendSignatures(lib: Library, body: string, fps: seq<string>) returns (r: Option<string>)
      requires forall fp :: fp in fps ==> fp in signatures
      ensures r.Some? <==> forall fp :: fp in fps ==> SignatureChecks(lib, body, fp, signatures[fp])
      ensures r.Some? ==> r.value == body + Join(SignatureLines(fps, signatures))
    {
      var out, n := body, 0;
      while n < |fps|
        invariant 0 <= n <= |fps|
        invariant forall i :: 0 <= i < n ==> SignatureChecks(lib, body, fps[i], signatures[fps[i]])
        invariant out + Join(SignatureLines(fps[n..], signatures)) == body + Join(SignatureLines(fps, signatures))
      {
        var fp := fps[n];
        if !SignatureChecks(lib, body, fp, signatures[fp]) { return None; }
        SignatureLinesNext(fps, n, signatures, out);
        out := out + (SignatureLine(fp, signatures[fp]) + "\n");
        n := n + 1;
      }
      assert out + "" == out;
      return Some(out);
    }

    method SortedFingerprints() returns (fps: seq<string>)
      ensures fps == Ordered(signatures.Keys)
      ensures forall fp :: fp in fps <==> fp in signatures
    {
      var todo := signatures.Keys;
      var found: seq<string> := [];
      while todo != {}
        invariant todo <= signatures.Keys
        invariant multiset(found) == multiset(signatures.Keys - todo)
        decreases todo
      {
        var fp :| fp in todo;
        assert signatures.Keys - (todo - {fp}) == (signatures.Keys - todo) + {fp};
        found, todo := found + [fp], todo - {fp};
      }
      assert signatures.Keys - {} == signatures.Keys;
      fps := Sort(found);
      SortCorrect(found);
      OrderedCorrect(signatures.Keys);
      OrderedMembers(signatures.Keys);
      SortedUnique(fps, Ordered(signatures.Keys));
    }
  }

  method SplitConsensusSignatures(text: string) returns (r: Option<(string, map<string, string>)>)
    ensures r == SplitSignatures(text)
  {
    var i := Index(text, D.MARK);
    if i.None? { return None; }
    var lines, sigs: map<string, string>, n := Split(text[i.value + 1..]), map[], 0;
    while n < |lines|
      invariant 0 <= n <= |lines|
      invariant ReadSignatures(lines[n..], sigs) == ReadSignatures(lines, map[])
    {
      assert lines[n..][1..] == lines[n + 1..];
      var next := ReadSignature(lines[n], sigs);
      if next.None? { return None; }
      sigs, n := next.value, n + 1;
    }
    if sigs == map[] { return None; }
    return Some((text[..i.value + 1], sigs));
  }

  method ScanBody(lib: Library, body: string) returns (r: Option<Reading>)
    ensures r == ReadBody(lib, body)
  {
    var raw := Split(body);
    if exists i :: 0 <= i < |raw| && |raw[i]| >= LINE_LIMIT { return None; }
    var lines, c, n := Lines(raw), START, 0;
    while n < |lines|
      invariant 0 <= n <= |lines|
      invariant ReadLines(lib, lines[n..], c) == ReadLines(lib, lines, START)
    {
      assert lines[n..][1..] == lines[n + 1..];
      var next := ReadLine(lib, lines[n], c);
      if next.None? { return None; }
      c, n := next.value, n + 1;
    }
    if c.first || c.after.None? || c.until.None? { return None; }
    return Some(c);
  }

  method ParseConsensus(lib: Library, text: string, authorities: map<string, Key>, threshold: int, now: int)
    returns (r: Option<Consensus>)
    ensures r == Parse(lib, text, authorities, threshold, now)
  {
    hide Validate, Body, Fresh, ReadLines, Lines, Split, D.Fits, SplitSignatures, Library.VerifySignature;
    if threshold < 1 || |authorities| < threshold { return None; }
    var split := SplitConsensusSignatures(text);
    if split.None? { return None; }
    var (body, sigs) := split.value;
    var read := ScanBody(lib, body);
    if read.None? { return None; }
    var c := Consensus(read.value.after.value, read.value.until.value, read.value.relays, sigs, Some(body));
    if !Validate(lib, c) || body != Body(lib, c) || !Fresh(c, now) { return None; }
    var checks := (fp: string) => fp in sigs && fp in authorities && lib.VerifySignature(authorities[fp], body, sigs[fp]);
    var valid := CountWhere(sigs.Keys, checks);
    assert (set fp | fp in sigs.Keys && checks(fp)) == Vouching(lib, authorities, body, sigs);
    if valid < threshold { return None; }
    return Some(c);
  }

  method CountWhere(fps: set<string>, holds: string -> bool) returns (n: nat)
    ensures n == |set fp | fp in fps && holds(fp)|
  {
    var todo := fps;
    ghost var counted: set<string> := {};
    n := 0;
    while todo != {}
      invariant todo <= fps
      invariant counted == set fp | fp in fps && fp !in todo && holds(fp)
      invariant n == |counted|
      decreases todo
    {
      var fp :| fp in todo;
      todo := todo - {fp};
      if holds(fp) { n, counted := n + 1, counted + {fp}; }
    }
    assert counted == set fp | fp in fps && holds(fp);
  }
}
