/** A relay's signed statement about itself: parsing, validation and validity windows. */
module Descriptors {
  import opened Prelude
  import opened Text
  import opened Library

  const VERSION: string := "osanwe-descriptor-1"
  const SIGNATURE: string := "signature "
  const MARK: string := "\nsignature "
  const LINE_LIMIT: nat := 1_048_576
  const CLOCK_SKEW: int := 300 * SECOND

  // A raw of None is the source's nil: the descriptor was never signed or parsed.
  datatype Descriptor = Descriptor(
    nickname: string, address: string, tlsPin: string, identity: string, destinations: seq<string>, contact: string,
    published: int, expires: int, raw: Option<string>, signature: string)

  /** The descriptor as the exact signed document it came from; empty when it was never signed. */
  function Encoded(d: Descriptor): string {
    if d.raw.None? || d.signature == "" then "" else d.raw.value + SIGNATURE + d.signature + "\n"
  }

  predicate Validate(lib: Library, d: Descriptor) {
    && d.nickname != "" && (forall c :: c in " \t\r\n" ==> c !in d.nickname)
    && lib.hostPort(d.address) && lib.ValidPin(d.tlsPin) && lib.DecodeKey(d.identity).Some?
    && d.destinations != []
    && d.published != 0 && d.expires != 0 && d.expires > d.published
  }

  predicate Expired(d: Descriptor, now: int) {
    now > d.expires || now < d.published - CLOCK_SKEW
  }

  predicate ValidThroughout(d: Descriptor, validAfter: int, validUntil: int) {
    && validAfter != 0 && validUntil != 0 && validUntil > validAfter
    && !Expired(d, validAfter) && validUntil <= d.expires
  }

  /** The signed body and the signature of a document that ends in one signature line. */
  function SplitSignature(text: string): (r: Option<(string, string)>)
    ensures r.Some? ==> r.value.0 != "" && r.value.0[|r.value.0| - 1] == '\n' && r.value.1 != ""
  {
    match LastIndex(text, MARK)
    case None => None
    case Some(i) =>
      var rest := text[i + 1..];
      var (line, after) := match Cut(rest, '\n') case None => (rest, "") case Some(p) => p;
      var sig := TrimSpace(if HasPrefix(line, SIGNATURE) then line[|SIGNATURE|..] else line);
      if sig == "" || TrimSpace(after) != "" then None
      else
        assert text[i] == text[i..i + |MARK|][0];
        Some((text[..i + 1], sig))
  }

  datatype Progress = Progress(first: bool, seen: set<string>, d: Descriptor)

  function ReadField(lib: Library, key: string, value: string, d: Descriptor): Option<Descriptor> {
    if key == "nickname" then Some(d.(nickname := value))
    else if key == "address" then Some(d.(address := value))
    else if key == "tls-pin" then Some(d.(tlsPin := value))
    else if key == "identity" then Some(d.(identity := value))
    else if key == "destination" then Some(d.(destinations := d.destinations + [value]))
    else if key == "contact" then Some(d.(contact := value))
    else if key == "published" && lib.parseTime(value).Some? then Some(d.(published := lib.parseTime(value).value))
    else if key == "expires" && lib.parseTime(value).Some? then Some(d.(expires := lib.parseTime(value).value))
    else None
  }

  function ReadLine(lib: Library, line: string, p: Progress): Option<Progress> {
    if p.first then (if line == VERSION then Some(p.(first := false)) else None)
    else
      match Cut(line, ' ')
      case None => None
      case Some((key, value)) =>
        if key != "destination" && key in p.seen then None
        else
          match ReadField(lib, key, TrimSpace(value), p.d)
          case None => None
          case Some(d) => Some(Progress(false, if key == "destination" then p.seen else p.seen + {key}, d))
  }

  function ReadLines(lib: Library, lines: seq<string>, p: Progress): Option<Progress> {
    if lines == [] then Some(p)
    else
      match ReadLine(lib, lines[0], p)
      case None => None
      case Some(next) => ReadLines(lib, lines[1..], next)
  }

  predicate Fits(lines: seq<string>, limit: nat) {
    forall i :: 0 <= i < |lines| ==> |lines[i]| < limit
  }

  function Blank(body: string, sig: string): Descriptor {
    Descriptor("", "", "", "", [], "", 0, 0, Some(body), sig)
  }

  /** What a byte string denotes as a descriptor. */
  function Parse(lib: Library, text: string): Option<Descriptor> {
    match SplitSignature(text)
    case None => None
    case Some((body, sig)) =>
      if !Fits(Split(body), LINE_LIMIT) then None
      else
        match ReadLines(lib, Lines(Split(body)), Progress(true, {}, Blank(body, sig)))
        case None => None
        case Some(p) =>
          if p.first || !Validate(lib, p.d) then None
          else if !lib.VerifySignature(lib.DecodeKey(p.d.identity).value, body, sig) then None
          else Some(p.d)
  }

  /** The parser as written: one pass over the lines, filling the descriptor in. */
  method ParseDescriptor(lib: Library, text: string) returns (r: Option<Descriptor>)
    ensures r == Parse(lib, text)
  {
    var split := SplitSignature(text);
    if split.None? { return None; }
    var (body, sig) := split.value;
    var raw := Split(body);
    if exists i :: 0 <= i < |raw| && |raw[i]| >= LINE_LIMIT { return None; }
    var lines, p, n := Lines(raw), Progress(true, {}, Blank(body, sig)), 0;
    while n < |lines|
      invariant 0 <= n <= |lines|
      invariant ReadLines(lib, lines[n..], p) == ReadLines(lib, lines, Progress(true, {}, Blank(body, sig)))
    {
      assert lines[n..][1..] == lines[n + 1..];
      var next := ReadLine(lib, lines[n], p);
      if next.None? { return None; }
      p, n := next.value, n + 1;
    }
    if p.first || !Validate(lib, p.d) { return None; }
    var key := lib.DecodeKey(p.d.identity);
    if !lib.VerifySignature(key.value, body, sig) { return None; }
    return Some(p.d);
  }

  lemma {:induction false} ReadLinesKeepsSignedBytes(lib: Library, lines: seq<string>, p: Progress)
    requires ReadLines(lib, lines, p).Some?
    ensures ReadLines(lib, lines, p).value.d.raw == p.d.raw && ReadLines(lib, lines, p).value.d.signature == p.d.signature
    decreases |lines|
  {
    if lines != [] {
      var next := ReadLine(lib, lines[0], p).value;
      assert next.d.raw == p.d.raw && next.d.signature == p.d.signature;
      ReadLinesKeepsSignedBytes(lib, lines[1..], next);
    }
  }

  predicate SignedShape(body: string, sig: string) {
    body != "" && body[|body| - 1] == '\n' && Tidy(sig) && OneLine(sig)
  }

  lemma SplitShape(text: string)
    requires SplitSignature(text).Some?
    ensures SignedShape(SplitSignature(text).value.0, SplitSignature(text).value.1)
  {
    var i := LastIndex(text, MARK).value;
    var rest := text[i + 1..];
    var line := match Cut(rest, '\n') case None => rest case Some(p) => p.0;
    TrimSpaceShape(if HasPrefix(line, SIGNATURE) then line[|SIGNATURE|..] else line);
  }

  lemma LastMark(body: string, sig: string)
    requires SignedShape(body, sig)
    ensures LastIndex(body + SIGNATURE + sig + "\n", MARK) == Some(|body| - 1)
  {
    var text, b, line := body + SIGNATURE + sig + "\n", |body| - 1, SIGNATURE + sig;
    assert text[|body|..|text| - 1] == line && OneLine(line);
    assert At(text, MARK, b) by {
      assert text[b..b + |MARK|] == [body[b]] + SIGNATURE == MARK;
    }
    forall i | |body| <= i < |text| - 1 ensures text[i] != '\n' {
      assert text[i] == line[i - |body|];
    }
    forall i | At(text, MARK, i) ensures text[i] == '\n' {
      assert text[i] == text[i..i + |MARK|][0];
    }
  }

  /** A body and a signature put back together come apart the same way. */
  lemma SplitSigned(body: string, sig: string)
    requires SignedShape(body, sig)
    ensures SplitSignature(body + SIGNATURE + sig + "\n") == Some((body, sig))
  {
    var text, line := body + SIGNATURE + sig + "\n", SIGNATURE + sig;
    LastMark(body, sig);
    assert text[|body|..] == line + ['\n'] + "" && text[..|body|] == body;
    CutAt(line, '\n', "");
    assert line[|SIGNATURE|..] == sig && line[..|SIGNATURE|] == SIGNATURE;
    TidyUntouched(sig);
  }

  ghost predicate FromParser(lib: Library, d: Descriptor) {
    exists text :: Parse(lib, text) == Some(d)
  }

  /** A parsed descriptor, written out again, is that descriptor: nothing is normalised away. */
  lemma Reparse(lib: Library, d: Descriptor)
    requires FromParser(lib, d)
    ensures Encoded(d) != "" && Parse(lib, Encoded(d)) == Some(d) && Validate(lib, d)
    ensures lib.VerifySignature(lib.DecodeKey(d.identity).value, d.raw.value, d.signature)
  {
    var text :| Parse(lib, text) == Some(d);
    var (body, sig) := SplitSignature(text).value;
    ReadLinesKeepsSignedBytes(lib, Lines(Split(body)), Progress(true, {}, Blank(body, sig)));
    SplitShape(text);
    SplitSigned(body, sig);
  }

  /** The identity is an Ed25519 key, and its 64-byte signature covers exactly the signed bytes. */
  ghost predicate SelfSigned(lib: Library, d: Descriptor) {
    exists key, sig :: lib.DecodeKey(d.identity) == Some(key) && |key| == 32 && lib.decode64(d.signature) == Some(sig) &&
      |sig| == 64 && d.raw.Some? && lib.edVerify(key, d.raw.value, sig)
  }

  /**
   * What a parsed descriptor promises, whatever text it came from: its identity is an Ed25519 key whose 64-byte signature
   * covers exactly the bytes before the signature line, its pin is a digest, and it states a name, a destination and a lifetime.
   */
  lemma ParsedMeans(lib: Library, text: string)
    requires Parse(lib, text).Some?
    ensures var d := Parse(lib, text).value;
      && SelfSigned(lib, d)
      && (exists line, after :: text == d.raw.value + "signature " + line + after && TrimSpace(line) == d.signature && TrimSpace(after) == "")
      && d.nickname != "" && ' ' !in d.nickname && '\n' !in d.nickname && d.destinations != [] && lib.hostPort(d.address)
      && lib.ValidPin(d.tlsPin) && d.published < d.expires && d.published != 0 && d.expires != 0
  {
    var d := Parse(lib, text).value;
    var (body, sig) := SplitSignature(text).value;
    var start := Progress(true, {}, Blank(body, sig));
    ReadLinesKeepsSignedBytes(lib, Lines(Split(body)), start);
    assert ReadLines(lib, Lines(Split(body)), start).value.d == d;
    SplitShape(text);
    TidyUntouched(sig);
    BodyThenSignature(text);
    assert Validate(lib, d) && lib.VerifySignature(lib.DecodeKey(d.identity).value, body, sig);
    hide Parse, ReadLines, SplitSignature, Split, Lines, Fits, LastIndex, TrimSpace, Library.ValidPin, Library.DecodeKey;
    KeyLength(lib, d.identity);
  }

  lemma KeyLength(lib: Library, s: string)
    ensures lib.DecodeKey(s).Some? ==> |lib.DecodeKey(s).value| == 32
  {
  }

  lemma BodyThenSignature(text: string)
    requires SplitSignature(text).Some?
    ensures exists line, after ::
      text == SplitSignature(text).value.0 + "signature " + line + after && TrimSpace(line) == SplitSignature(text).value.1 && TrimSpace(after) == ""
  {
    var line, after := SignatureParts(text);
  }

  lemma SignatureParts(text: string) returns (line: string, after: string)
    requires SplitSignature(text).Some?
    ensures text == SplitSignature(text).value.0 + "signature " + line + after
    ensures TrimSpace(line) == SplitSignature(text).value.1 && TrimSpace(after) == ""
  {
    hide TrimSpace, Cut;
    var i := LastIndex(text, MARK).value;
    var rest := text[i + 1..];
    assert rest[..|SIGNATURE|] == text[i..i + |MARK|][1..] == SIGNATURE;
    assert text == text[..i + 1] + rest;
    hide LastIndex;
    match Cut(rest, '\n') {
      case None =>
        line, after := rest[|SIGNATURE|..], "";
        assert rest == SIGNATURE + line;
      case Some((first, more)) =>
        SignatureFirst(rest, first, more);
        line, after := first[|SIGNATURE|..], "\n" + more;
        BreakIsSpace(more);
        assert rest == SIGNATURE + line + after;
    }
  }

  lemma SignatureFirst(rest: string, first: string, after: string)
    requires HasPrefix(rest, SIGNATURE) && rest == first + ['\n'] + after && '\n' !in first
    ensures HasPrefix(first, SIGNATURE) && first == SIGNATURE + first[|SIGNATURE|..]
  {
    assert rest[..|SIGNATURE|] == SIGNATURE;
    assert forall k :: 0 <= k < |SIGNATURE| ==> rest[k] == SIGNATURE[k] && SIGNATURE[k] != '\n';
    assert rest[|first|] == '\n' && |first| >= |SIGNATURE|;
    assert first[..|SIGNATURE|] == rest[..|SIGNATURE|];
  }

  lemma BreakIsSpace(after: string)
    requires TrimSpace(after) == ""
    ensures TrimSpace("\n" + after) == ""
  {
    assert ("\n" + after)[1..] == after;
  }

  // ---- each field once

  function KeyOf(line: string): string {
    match Cut(line, ' ') case None => "" case Some((key, _)) => key
  }

  predicate KnownField(key: string) {
    key in ["nickname", "address", "tls-pin", "identity", "destination", "contact", "published", "expires"]
  }

  /** Every line states a known field, and no field but the destination is stated twice. */
  predicate FieldsOnce(lines: seq<string>) {
    && (forall i :: 0 <= i < |lines| ==> KnownField(KeyOf(lines[i])))
    && (forall i, j :: 0 <= i < j < |lines| && KeyOf(lines[i]) == KeyOf(lines[j]) ==> KeyOf(lines[i]) == "destination")
  }

  lemma LineIsField(lib: Library, line: string, p: Progress)
    requires !p.first && ReadLine(lib, line, p).Some?
    ensures KnownField(KeyOf(line)) && (KeyOf(line) != "destination" ==> KeyOf(line) !in p.seen)
    ensures var next := ReadLine(lib, line, p).value; !next.first && p.seen <= next.seen && (KeyOf(line) != "destination" ==> KeyOf(line) in next.seen)
  {
    hide TrimSpace, Cut;
  }

  lemma {:induction false} LinesAreFields(lib: Library, lines: seq<string>, p: Progress)
    requires !p.first && ReadLines(lib, lines, p).Some?
    ensures FieldsOnce(lines)
    ensures forall i :: 0 <= i < |lines| && KeyOf(lines[i]) != "destination" ==> KeyOf(lines[i]) !in p.seen
    decreases |lines|
  {
    hide ReadLine, KnownField, KeyOf;
    if lines != [] {
      LineIsField(lib, lines[0], p);
      LinesAreFields(lib, lines[1..], ReadLine(lib, lines[0], p).value);
      assert forall i :: 0 < i < |lines| ==> lines[i] == lines[1..][i - 1];
    }
  }

  /** A document that parses opens with the version and then states known fields only, none but destinations more than once. */
  lemma ParsedStatesFieldsOnce(lib: Library, text: string)
    requires Parse(lib, text).Some?
    ensures Parse(lib, text).value.raw.Some?
    ensures var lines := Lines(Split(Parse(lib, text).value.raw.value));
            lines != [] && lines[0] == "osanwe-descriptor-1" && FieldsOnce(lines[1..])
  {
    var (body, sig) := SplitSignature(text).value;
    var start, lines := Progress(true, {}, Blank(body, sig)), Lines(Split(body));
    ReadLinesKeepsSignedBytes(lib, lines, start);
    hide SplitSignature, Split, Lines, Fits, Validate, FieldsOnce, Library.VerifySignature;
    assert lines != [];
    assert ReadLine(lib, lines[0], start) == Some(start.(first := false));
    LinesAreFields(lib, lines[1..], start.(first := false));
  }
}
