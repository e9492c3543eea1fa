/** Printing a descriptor for signing, and the proof that the parser reads back what was printed. */
module DescriptorPrinting {
  import opened Prelude
  import opened Text
  import opened Library
  import opened Descriptors

  function Field(key: string, value: string): string {
    key + " " + value
  }

  function Destinations(dests: seq<string>): seq<string> {
    if dests == [] then [] else [Field("destination", dests[0])] + Destinations(dests[1..])
  }

  function Heading(d: Descriptor): seq<string> {
    [VERSION, Field("nickname", d.nickname), Field("address", d.address), Field("tls-pin", d.tlsPin),
     Field("identity", d.identity)]
  }

  function Ending(lib: Library, d: Descriptor): seq<string> {
    (if d.contact == "" then [] else [Field("contact", d.contact)])
    + [Field("published", lib.formatTime(d.published)), Field("expires", lib.formatTime(d.expires))]
  }

  function BodyLines(lib: Library, d: Descriptor): seq<string> {
    Heading(d) + Destinations(Sort(d.destinations)) + Ending(lib, d)
  }

  /** The signed portion of a descriptor. */
  function Body(lib: Library, d: Descriptor): string {
    Join(BodyLines(lib, d))
  }

  /** Signing freezes the printed body and attaches the signature. */
  function Signed(lib: Library, d: Descriptor, sig: string): Descriptor {
    d.(raw := Some(Body(lib, d)), signature := sig)
  }

  predicate Clean(value: string) {
    OneLine(value) && (value == "" || Tidy(value))
  }

  /** Fields that a line-oriented document can carry unchanged. */
  ghost predicate SingleLineFields(lib: Library, d: Descriptor) {
    && Clean(d.nickname) && Clean(d.address) && Clean(d.tlsPin) && Clean(d.identity) && Clean(d.contact)
    && (forall v :: v in d.destinations ==> Clean(v))
    && lib.Printable(d.published) && lib.Printable(d.expires)
  }

  lemma {:induction false} ReadLinesAppend(lib: Library, a: seq<string>, b: seq<string>, p: Progress)
    requires ReadLines(lib, a, p).Some?
    ensures ReadLines(lib, a + b, p) == ReadLines(lib, b, ReadLines(lib, a, p).value)
    decreases |a|
  {
    if a == [] {
      assert a + b == b;
    } else {
      assert (a + b)[1..] == a[1..] + b;
      ReadLinesAppend(lib, a[1..], b, ReadLine(lib, a[0], p).value);
    }
  }

  /** One printed field is read back as that field. */
  lemma ReadPrinted(lib: Library, key: string, value: string, p: Progress)
    requires Clean(value) && ' ' !in key && !p.first && (key == "destination" || key !in p.seen)
    ensures ReadLine(lib, Field(key, value), p) ==
            match ReadField(lib, key, value, p.d)
            case None => None
            case Some(d) => Some(Progress(false, if key == "destination" then p.seen else p.seen + {key}, d))
  {
    CutAt(key, ' ', value);
    TidyUntouched(value);
  }

  lemma ReadOne(lib: Library, line: string, rest: seq<string>, p: Progress)
    requires ReadLine(lib, line, p).Some?
    ensures ReadLines(lib, [line] + rest, p) == ReadLines(lib, rest, ReadLine(lib, line, p).value)
  {
    assert ([line] + rest)[1..] == rest;
  }

  lemma ReadDestination(lib: Library, dest: string, p: Progress)
    requires !p.first && Clean(dest)
    ensures ReadLine(lib, Field("destination", dest), p) == Some(p.(d := p.d.(destinations := p.d.destinations + [dest])))
  {
    ReadPrinted(lib, "destination", dest, p);
  }

  lemma {:induction false} ReadDestinations(lib: Library, dests: seq<string>, p: Progress)
    requires !p.first && forall v :: v in dests ==> Clean(v)
    ensures ReadLines(lib, Destinations(dests), p) == Some(p.(d := p.d.(destinations := p.d.destinations + dests)))
    decreases |dests|
  {
    hide ReadLine, Field, Clean;
    if dests == [] {
      assert p.d.destinations + dests == p.d.destinations;
    } else {
      var next := p.(d := p.d.(destinations := p.d.destinations + [dests[0]]));
      ReadDestination(lib, dests[0], p);
      ReadOne(lib, Field("destination", dests[0]), Destinations(dests[1..]), p);
      ReadDestinations(lib, dests[1..], next);
      assert p.d.destinations + [dests[0]] + dests[1..] == p.d.destinations + dests;
    }
  }

  lemma ReadKey(lib: Library, key: string, value: string, rest: seq<string>, p: Progress, d: Descriptor)
    requires Clean(value) && ' ' !in key && !p.first && key != "destination" && key !in p.seen
    requires ReadField(lib, key, value, p.d) == Some(d)
    ensures ReadLines(lib, [Field(key, value)] + rest, p) == ReadLines(lib, rest, Progress(false, p.seen + {key}, d))
  {
    ReadPrinted(lib, key, value, p);
    ReadOne(lib, Field(key, value), rest, p);
  }

  const K1: set<string> := {} + {"nickname"}
  const K2: set<string> := K1 + {"address"}
  const K3: set<string> := K2 + {"tls-pin"}
  const K4: set<string> := K3 + {"identity"}

  lemma FreshKeys()
    ensures "address" !in K1 && "tls-pin" !in K2 && "identity" !in K3
    ensures "contact" !in K4 && "published" !in K4 + {"contact"} && "expires" !in K4 + {"contact"} + {"published"}
  {
  }

  lemma ReadNicknameAddress(lib: Library, d: Descriptor, blank: Descriptor, rest: seq<string>)
    requires Clean(d.nickname) && Clean(d.address)
    ensures ReadLines(lib, [Field("nickname", d.nickname)] + ([Field("address", d.address)] + rest), Progress(false, {}, blank)) ==
            ReadLines(lib, rest, Progress(false, K2, blank.(nickname := d.nickname, address := d.address)))
  {
    FreshKeys();
    var d1 := blank.(nickname := d.nickname);
    ReadKey(lib, "nickname", d.nickname, [Field("address", d.address)] + rest, Progress(false, {}, blank), d1);
    ReadKey(lib, "address", d.address, rest, Progress(false, K1, d1), d1.(address := d.address));
  }

  lemma ReadPinIdentity(lib: Library, d: Descriptor, from: Descriptor, rest: seq<string>)
    requires Clean(d.tlsPin) && Clean(d.identity)
    ensures ReadLines(lib, [Field("tls-pin", d.tlsPin)] + ([Field("identity", d.identity)] + rest), Progress(false, K2, from)) ==
            ReadLines(lib, rest, Progress(false, K4, from.(tlsPin := d.tlsPin, identity := d.identity)))
  {
    FreshKeys();
    var d1 := from.(tlsPin := d.tlsPin);
    ReadKey(lib, "tls-pin", d.tlsPin, [Field("identity", d.identity)] + rest, Progress(false, K2, from), d1);
    ReadKey(lib, "identity", d.identity, rest, Progress(false, K3, d1), d1.(identity := d.identity));
  }

  lemma ReadHeading(lib: Library, d: Descriptor, blank: Descriptor)
    requires Clean(d.nickname) && Clean(d.address) && Clean(d.tlsPin) && Clean(d.identity)
    ensures ReadLines(lib, Heading(d), Progress(true, {}, blank)) ==
            Some(Progress(false, K4,
              blank.(nickname := d.nickname, address := d.address, tlsPin := d.tlsPin, identity := d.identity)))
  {
    var h, named := Heading(d), blank.(nickname := d.nickname, address := d.address);
    var last2 := [h[3]] + ([h[4]] + []);
    assert h == [h[0]] + ([h[1]] + ([h[2]] + last2));
    ReadOne(lib, h[0], [h[1]] + ([h[2]] + last2), Progress(true, {}, blank));
    ReadNicknameAddress(lib, d, blank, last2);
    ReadPinIdentity(lib, d, named, []);
  }

  lemma ReadTimes(lib: Library, d: Descriptor, p: Progress)
    requires lib.Sound() && lib.Printable(d.published) && lib.Printable(d.expires)
    requires !p.first && p.seen <= K4 + {"contact"}
    ensures ReadLines(lib, [Field("published", lib.formatTime(d.published)), Field("expires", lib.formatTime(d.expires))], p) ==
            Some(Progress(false, p.seen + {"published"} + {"expires"}, p.d.(published := d.published, expires := d.expires)))
  {
    var at, until := lib.formatTime(d.published), lib.formatTime(d.expires);
    FreshKeys();
    WordIsClean(at);
    WordIsClean(until);
    hide ReadLine, ReadLines, Field, Clean, Library.Sound;
    var d1 := p.d.(published := d.published);
    ReadKey(lib, "published", at, [Field("expires", until)] + [], p, d1);
    ReadKey(lib, "expires", until, [], Progress(false, p.seen + {"published"}, d1), d1.(expires := d.expires));
    assert [Field("published", at), Field("expires", until)] == [Field("published", at)] + ([Field("expires", until)] + []);
  }

  lemma ReadEnding(lib: Library, d: Descriptor, p: Progress)
    requires lib.Sound() && Clean(d.contact) && lib.Printable(d.published) && lib.Printable(d.expires)
    requires !p.first && p.seen == K4 && p.d.contact == ""
    ensures ReadLines(lib, Ending(lib, d), p).Some?
    ensures var r := ReadLines(lib, Ending(lib, d), p).value;
            !r.first && r.d == p.d.(contact := d.contact, published := d.published, expires := d.expires)
  {
    var times := [Field("published", lib.formatTime(d.published)), Field("expires", lib.formatTime(d.expires))];
    if d.contact == "" {
      assert Ending(lib, d) == times;
      ReadTimes(lib, d, p);
    } else {
      FreshKeys();
      ReadKey(lib, "contact", d.contact, times, p, p.d.(contact := d.contact));
      ReadTimes(lib, d, Progress(false, p.seen + {"contact"}, p.d.(contact := d.contact)));
    }
  }

  lemma WordIsClean(word: string)
    requires NoSpace(word) && word != ""
    ensures Clean(word)
  {
    assert word[0] in word && word[|word| - 1] in word;
  }

  lemma FieldIsLine(key: string, value: string)
    requires Clean(value) && OneLine(key)
    ensures OneLine(Field(key, value)) && Kept(Field(key, value))
  {
    assert value != "" ==> Field(key, value)[|Field(key, value)| - 1] == value[|value| - 1];
  }

  lemma {:induction false} DestinationLines(dests: seq<string>)
    requires forall v :: v in dests ==> Clean(v)
    ensures forall l :: l in Destinations(dests) ==> OneLine(l) && Kept(l)
  {
    if dests != [] {
      FieldIsLine("destination", dests[0]);
      DestinationLines(dests[1..]);
    }
  }

  ghost predicate Printed(lines: seq<string>) {
    forall l :: l in lines ==> OneLine(l) && Kept(l)
  }

  lemma EndingPrinted(lib: Library, d: Descriptor)
    requires lib.Sound() && Clean(d.contact)
    ensures Printed(Ending(lib, d))
  {
    var at, until := lib.formatTime(d.published), lib.formatTime(d.expires);
    WordIsClean(at);
    WordIsClean(until);
    FieldIsLine("contact", d.contact);
    FieldIsLine("published", at);
    FieldIsLine("expires", until);
  }

  lemma HeadingPrinted(d: Descriptor)
    requires Clean(d.nickname) && Clean(d.address) && Clean(d.tlsPin) && Clean(d.identity)
    ensures Printed(Heading(d))
  {
    FieldIsLine("nickname", d.nickname);
    FieldIsLine("address", d.address);
    FieldIsLine("tls-pin", d.tlsPin);
    FieldIsLine("identity", d.identity);
    assert OneLine(VERSION) && Kept(VERSION);
  }

  lemma SortedClean(d: Descriptor)
    requires forall v :: v in d.destinations ==> Clean(v)
    ensures forall v :: v in Sort(d.destinations) ==> Clean(v)
  {
    SortCorrect(d.destinations);
    forall v | v in Sort(d.destinations) ensures Clean(v) {
      assert v in multiset(Sort(d.destinations));
    }
  }

  lemma BodyIsLines(lib: Library, d: Descriptor)
    requires lib.Sound() && SingleLineFields(lib, d)
    ensures Printed(BodyLines(lib, d))
  {
    SortedClean(d);
    DestinationLines(Sort(d.destinations));
    HeadingPrinted(d);
    EndingPrinted(lib, d);
  }

  /** The printed body read back gives every field, the destinations in sorted order. */
  lemma ReadBody(lib: Library, d: Descriptor, blank: Descriptor)
    requires lib.Sound() && SingleLineFields(lib, d) && blank.destinations == [] && blank.contact == ""
    ensures var r := ReadLines(lib, BodyLines(lib, d), Progress(true, {}, blank));
            r.Some? && !r.value.first &&
            r.value.d == d.(destinations := Sort(d.destinations), raw := blank.raw, signature := blank.signature)
  {
    var start := Progress(true, {}, blank);
    var dests := Sort(d.destinations);
    SortedClean(d);
    ReadHeading(lib, d, blank);
    var p := ReadLines(lib, Heading(d), start).value;
    ReadLinesAppend(lib, Heading(d), Destinations(dests), start);
    ReadDestinations(lib, dests, p);
    assert [] + dests == dests;
    var q := ReadLines(lib, Heading(d) + Destinations(dests), start).value;
    ReadLinesAppend(lib, Heading(d) + Destinations(dests), Ending(lib, d), start);
    ReadEnding(lib, d, q);
  }

  lemma BodyEndsInNewline(lib: Library, d: Descriptor)
    ensures var b := Body(lib, d); b != "" && b[|b| - 1] == '\n'
  {
    var lines := BodyLines(lib, d);
    var front, last := lines[..|lines| - 1], lines[|lines| - 1];
    assert lines == front + [last];
    JoinAppend(front, [last]);
    assert Join([last]) == last + "\n" + Join([last][1..]) == last + "\n";
  }

  /** A descriptor of single-line fields, signed by the key it names, survives publication: parsing its document gives it back. */
  lemma SignedParses(lib: Library, d: Descriptor, sig: string)
    requires lib.Sound() && SingleLineFields(lib, d) && Validate(lib, d) && Fits(BodyLines(lib, d), LINE_LIMIT)
    requires Tidy(sig) && OneLine(sig)
    requires lib.VerifySignature(lib.DecodeKey(d.identity).value, Body(lib, d), sig)
    ensures Parse(lib, Encoded(Signed(lib, d, sig))) ==
            Some(Signed(lib, d, sig).(destinations := Sort(d.destinations)))
  {
    var body, lines := Body(lib, d), BodyLines(lib, d);
    BodyEndsInNewline(lib, d);
    SplitSigned(body, sig);
    BodyIsLines(lib, d);
    PrintedLines(lines);
    ReadBody(lib, d, Blank(body, sig));
    assert Fits(Split(body), LINE_LIMIT);
    SortCorrect(d.destinations);
    assert Validate(lib, Signed(lib, d, sig).(destinations := Sort(d.destinations)));
  }

  /**
   * A relay publishes itself: a descriptor of single-line fields under its own key, signed with that key, is read back, with
   * its destinations in order, exactly when it states a one-word name, an address, a whole digest as its pin, a destination,
   * and a lifetime that ends after it begins.
   */
  lemma OwnDescriptorParsesIff(lib: Library, d: Descriptor, id: Identity, digest: string)
    requires lib.Sound() && lib.KeyPair(id) && SingleLineFields(lib, d) && Fits(BodyLines(lib, d), 1_048_576)
    requires d.identity == lib.EncodeKey(id.pub) && d.tlsPin == "sha256/" + lib.encode64(digest)
    ensures var signed := Signed(lib, d, lib.encode64(id.sign(Body(lib, d))));
      Parse(lib, Encoded(signed)) ==
        if d.nickname != "" && ' ' !in d.nickname && '\t' !in d.nickname && '\r' !in d.nickname && '\n' !in d.nickname
           && lib.hostPort(d.address) && |digest| == 32 && d.destinations != []
           && d.published != 0 && d.expires != 0 && d.published < d.expires
        then Some(signed.(destinations := Sort(d.destinations))) else None
  {
    var body, lines := Body(lib, d), BodyLines(lib, d);
    var sig := lib.encode64(id.sign(body));
    lib.SignatureText(id, body);
    lib.KeyText(id.pub);
    lib.PinTextIff(digest);
    NameIff(d.nickname);
    assert OneLine(sig);
    assert Validate(lib, d) <==>
      (d.nickname != "" && ' ' !in d.nickname && '\t' !in d.nickname && '\r' !in d.nickname && '\n' !in d.nickname
       && lib.hostPort(d.address) && |digest| == 32 && d.destinations != []
       && d.published != 0 && d.expires != 0 && d.published < d.expires);
    hide Library.ValidPin, Library.DecodeKey, Library.EncodeKey, Library.KeyPair, SingleLineFields, Sort, BodyLines;
    if Validate(lib, d) {
      SignedParses(lib, d, sig);
    } else {
      InvalidIsRefused(lib, d, sig);
    }
  }

  lemma NameIff(name: string)
    ensures (forall c :: c in " \t\r\n" ==> c !in name) <==> ' ' !in name && '\t' !in name && '\r' !in name && '\n' !in name
  {
    var spaces := " \t\r\n";
    assert spaces[0] == ' ' && spaces[1] == '\t' && spaces[2] == '\r' && spaces[3] == '\n';
    assert spaces[0] in spaces && spaces[1] in spaces && spaces[2] in spaces && spaces[3] in spaces;
  }

  lemma InvalidIsRefused(lib: Library, d: Descriptor, sig: string)
    requires lib.Sound() && SingleLineFields(lib, d) && !Validate(lib, d) && Tidy(sig) && OneLine(sig)
    ensures Parse(lib, Encoded(Signed(lib, d, sig))) == None
  {
    var body, lines := Body(lib, d), BodyLines(lib, d);
    BodyEndsInNewline(lib, d);
    SplitSigned(body, sig);
    BodyIsLines(lib, d);
    PrintedLines(lines);
    ReadBody(lib, d, Blank(body, sig));
    SortCorrect(d.destinations);
    assert !Validate(lib, Signed(lib, d, sig).(destinations := Sort(d.destinations)));
  }
}
