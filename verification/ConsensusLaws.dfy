/** The consensus printer and parser undo each other, and a body determines its window and relay set. */
module ConsensusLaws {
  import opened Prelude
  import opened Text
  import opened Library
  import D = Descriptors
  import opened Consensuses

  // ---- lists of relays and of their texts

  predicate NoDup(xs: seq<string>) {
    forall i, j :: 0 <= i < j < |xs| ==> xs[i] != xs[j]
  }

  function Members(xs: seq<string>): set<string> {
    set x | x in xs
  }

  lemma CancelOne(x: string, a: multiset<string>, b: multiset<string>)
    ensures multiset{x} + a == multiset{x} + b <==> a == b
  {
    assert a == (multiset{x} + a) - multiset{x} && b == (multiset{x} + b) - multiset{x};
  }

  lemma NoDupTail(x: string, rest: seq<string>)
    requires x !in rest
    ensures NoDup([x] + rest) <==> NoDup(rest)
  {
    var xs := [x] + rest;
    assert forall i :: 0 <= i < |rest| ==> xs[i + 1] == rest[i];
    assert forall i, j :: 0 <= i < j < |rest| ==> xs[i + 1] == rest[i] && xs[j + 1] == rest[j];
  }

  lemma {:induction false} NoDupIsSet(xs: seq<string>)
    ensures NoDup(xs) <==> multiset(xs) == multiset(Members(xs))
    decreases |xs|
  {
    if xs != [] {
      var x, rest := xs[0], xs[1..];
      assert xs == [x] + rest;
      assert multiset(xs) == multiset{x} + multiset(rest);
      NoDupIsSet(rest);
      if x in rest {
        assert multiset(xs)[x] >= 2 && multiset(Members(xs))[x] == 1;
        var j :| 0 <= j < |rest| && rest[j] == x;
        assert xs[0] == xs[j + 1];
      } else {
        assert Members(xs) == {x} + Members(rest);
        CancelOne(x, multiset(rest), multiset(Members(rest)));
        assert multiset(Members(xs)) == multiset{x} + multiset(Members(rest));
        NoDupTail(x, rest);
      }
    }
  }

  /** Two duplicate-free lists with the same members sort to the same list. */
  lemma SameMembersSameSort(xs: seq<string>, ys: seq<string>)
    requires NoDup(xs) && NoDup(ys) && Members(xs) == Members(ys)
    ensures Sort(xs) == Sort(ys)
  {
    NoDupIsSet(xs);
    NoDupIsSet(ys);
    SortPermutation(xs, ys);
  }

  lemma SortKeepsMembers(xs: seq<string>)
    requires NoDup(xs)
    ensures NoDup(Sort(xs)) && Members(Sort(xs)) == Members(xs) && |Sort(xs)| == |xs|
  {
    SortCorrect(xs);
    forall x ensures x in Sort(xs) <==> x in xs {
      assert x in Sort(xs) <==> x in multiset(Sort(xs));
      assert x in xs <==> x in multiset(xs);
    }
    NoDupIsSet(xs);
    NoDupIsSet(Sort(xs));
  }

  ghost predicate AllFromParser(lib: Library, relays: seq<D.Descriptor>) {
    forall d :: d in relays ==> D.FromParser(lib, d)
  }

  ghost predicate AllParse(lib: Library, es: seq<string>) {
    forall e :: e in es ==> D.Parse(lib, e).Some?
  }

  ghost function ParseAll(lib: Library, es: seq<string>): (ds: seq<D.Descriptor>)
    requires AllParse(lib, es)
    ensures |ds| == |es| && forall i :: 0 <= i < |ds| ==> D.Parse(lib, es[i]) == Some(ds[i])
  {
    if es == [] then [] else [D.Parse(lib, es[0]).value] + ParseAll(lib, es[1..])
  }

  ghost function RelaySet(relays: seq<D.Descriptor>): set<D.Descriptor> {
    set d | d in relays
  }

  /** Printing in canonical order and parsing back loses nothing: same relays, each once. */
  lemma SortedRelays(lib: Library, relays: seq<D.Descriptor>)
    requires AllFromParser(lib, relays) && DistinctIdentities(relays)
    ensures var es := Sort(EncodedAll(relays));
            && NoDup(EncodedAll(relays)) && AllParse(lib, es)
            && RelaySet(ParseAll(lib, es)) == RelaySet(relays) && DistinctIdentities(ParseAll(lib, es))
            && EncodedAll(ParseAll(lib, es)) == es
  {
    hide D.Parse, D.Encoded, D.Validate, Sort;
    var all := EncodedAll(relays);
    forall d | d in relays ensures D.Parse(lib, D.Encoded(d)) == Some(d) {
      D.Reparse(lib, d);
    }
    assert forall i :: 0 <= i < |all| ==> relays[i] in relays && D.Parse(lib, all[i]) == Some(relays[i]);
    assert NoDup(all);
    SortKeepsMembers(all);
    var es := Sort(all);
    forall e | e in es ensures e in all && D.Parse(lib, e).Some? {
      assert e in Members(es);
    }
    var ds := ParseAll(lib, es);
    ParsedRelays(lib, relays, es, ds);
  }

  lemma ParsedRelays(lib: Library, relays: seq<D.Descriptor>, es: seq<string>, ds: seq<D.Descriptor>)
    requires forall d :: d in relays ==> D.Parse(lib, D.Encoded(d)) == Some(d)
    requires DistinctIdentities(relays) && NoDup(es) && Members(es) == Members(EncodedAll(relays))
    requires |ds| == |es| && forall i :: 0 <= i < |ds| ==> D.Parse(lib, es[i]) == Some(ds[i])
    ensures RelaySet(ds) == RelaySet(relays) && DistinctIdentities(ds) && EncodedAll(ds) == es
  {
    hide D.Parse, D.Encoded;
    var all := EncodedAll(relays);
    forall i | 0 <= i < |es| ensures ds[i] in relays && D.Encoded(ds[i]) == es[i] {
      assert es[i] in Members(all);
      var k :| 0 <= k < |all| && all[k] == es[i];
      assert relays[k] in relays;
    }
    forall d | d in relays ensures d in ds {
      var k :| 0 <= k < |relays| && relays[k] == d;
      assert all[k] in Members(es);
      var i :| 0 <= i < |es| && es[i] == all[k];
      assert ds[i] == d;
    }
    forall i, j | 0 <= i < j < |ds| ensures ds[i].identity != ds[j].identity {
      var a :| 0 <= a < |relays| && relays[a] == ds[i];
      var b :| 0 <= b < |relays| && relays[b] == ds[j];
      assert a != b;
    }
  }

  // ---- reading a printed body

  lemma ReadOne(lib: Library, line: string, rest: seq<string>, r: Reading)
    requires ReadLine(lib, line, r).Some?
    ensures ReadLines(lib, [line] + rest, r) == ReadLines(lib, rest, ReadLine(lib, line, r).value)
  {
    assert ([line] + rest)[1..] == rest;
  }

  lemma WordIsTidy(word: string)
    requires NoSpace(word) && word != ""
    ensures Tidy(word) && OneLine(word) && ' ' !in word && TrimSpace(word) == word
  {
    assert word[0] in word && word[|word| - 1] in word;
    TidyUntouched(word);
  }

  lemma ReadTime(lib: Library, key: string, t: int, r: Reading)
    requires lib.Sound() && lib.Printable(t) && !r.first && ' ' !in key
    ensures ReadLine(lib, key + " " + lib.formatTime(t), r) == ReadField(lib, key, lib.formatTime(t), r)
  {
    WordIsTidy(lib.formatTime(t));
    CutAt(key, ' ', lib.formatTime(t));
  }

  lemma ReadHeading(lib: Library, c: Consensus)
    requires lib.Sound() && lib.Printable(c.validAfter) && lib.Printable(c.validUntil)
    ensures ReadLines(lib, Heading(lib, c), START) == Some(Reading(false, Some(c.validAfter), Some(c.validUntil), []))
  {
    var h := Heading(lib, c);
    var r0 := Reading(false, None, None, []);
    var r1 := Reading(false, Some(c.validAfter), None, []);
    assert "valid-after " + lib.formatTime(c.validAfter) == "valid-after" + " " + lib.formatTime(c.validAfter);
    assert "valid-until " + lib.formatTime(c.validUntil) == "valid-until" + " " + lib.formatTime(c.validUntil);
    ReadTime(lib, "valid-after", c.validAfter, r0);
    ReadTime(lib, "valid-until", c.validUntil, r1);
    assert h == [h[0]] + ([h[1]] + ([h[2]] + []));
    ReadOne(lib, h[2], [], r1);
    ReadOne(lib, h[1], [h[2]] + [], r0);
    ReadOne(lib, h[0], [h[1]] + ([h[2]] + []), START);
  }

  lemma RelayText(lib: Library, e: string)
    requires lib.Sound() && e != ""
    ensures var v := lib.itoa(|lib.encode64(e)|) + " " + lib.encode64(e);
            Tidy(v) && OneLine(v) && TrimSpace(v) == v && Cut(v, ' ') == Some((lib.itoa(|lib.encode64(e)|), lib.encode64(e)))
  {
    var n, b := lib.itoa(|lib.encode64(e)|), lib.encode64(e);
    WordIsTidy(n);
    WordIsTidy(b);
    CutAt(n, ' ', b);
    TidyUntouched(n + " " + b);
  }

  lemma RelayField(lib: Library, v: string, r: Reading, d: D.Descriptor)
    requires ReadRelay(lib, v) == Some(d)
    ensures ReadField(lib, "relay", v, r) == Some(r.(relays := r.relays + [d]))
  {
    hide ReadRelay;
  }

  lemma RelayReads(lib: Library, e: string)
    requires lib.Sound() && e != "" && D.Parse(lib, e).Some?
    ensures ReadRelay(lib, lib.itoa(|lib.encode64(e)|) + " " + lib.encode64(e)) == D.Parse(lib, e)
  {
    hide D.Parse;
    RelayText(lib, e);
  }

  lemma ReadRelayLine(lib: Library, e: string, r: Reading)
    requires lib.Sound() && e != "" && !r.first && D.Parse(lib, e).Some?
    ensures ReadLine(lib, RelayLine(lib, e), r) == Some(r.(relays := r.relays + [D.Parse(lib, e).value]))
  {
    hide D.Parse, ReadField, ReadRelay;
    var v := lib.itoa(|lib.encode64(e)|) + " " + lib.encode64(e);
    RelayText(lib, e);
    assert RelayLine(lib, e) == "relay" + [' '] + v;
    CutAt("relay", ' ', v);
    RelayReads(lib, e);
    RelayField(lib, v, r, D.Parse(lib, e).value);
    hide RelayLine, Library.Sound;
  }

  lemma ParseAllNext(lib: Library, es: seq<string>)
    requires AllParse(lib, es) && es != []
    ensures D.Parse(lib, es[0]).Some? && AllParse(lib, es[1..])
    ensures ParseAll(lib, es) == [D.Parse(lib, es[0]).value] + ParseAll(lib, es[1..])
  {
    hide D.Parse;
  }

  lemma NoMoreRelays(lib: Library, r: Reading)
    ensures ReadLines(lib, RelayLines(lib, []), r) == Some(r) && ParseAll(lib, []) == [] && r.relays + [] == r.relays
  {
  }

  lemma {:induction false} ReadRelays(lib: Library, es: seq<string>, r: Reading)
    requires lib.Sound() && !r.first && AllParse(lib, es) && "" !in es
    ensures ReadLines(lib, RelayLines(lib, es), r) == Some(r.(relays := r.relays + ParseAll(lib, es)))
    decreases |es|
  {
    hide D.Parse, ReadLine, ReadLines, RelayLine, AllParse, ParseAll, Library.Sound;
    if es == [] {
      NoMoreRelays(lib, r);
    } else {
      ParseAllNext(lib, es);
      var d := D.Parse(lib, es[0]).value;
      ReadRelayLine(lib, es[0], r);
      ReadOne(lib, RelayLine(lib, es[0]), RelayLines(lib, es[1..]), r);
      ReadRelays(lib, es[1..], r.(relays := r.relays + [d]));
      assert r.relays + [d] + ParseAll(lib, es[1..]) == r.relays + ParseAll(lib, es);
    }
  }

  lemma {:induction false} ReadLinesAppend(lib: Library, a: seq<string>, b: seq<string>, r: Reading)
    requires ReadLines(lib, a, r).Some?
    ensures ReadLines(lib, a + b, r) == ReadLines(lib, b, ReadLines(lib, a, r).value)
    decreases |a|
  {
    if a == [] {
      assert a + b == b;
    } else {
      assert (a + b)[1..] == a[1..] + b;
      ReadLinesAppend(lib, a[1..], b, ReadLine(lib, a[0], r).value);
    }
  }

  /** A body line: never empty, never starting like a signature line. */
  ghost predicate BodyLine(line: string) {
    OneLine(line) && Kept(line) && line[0] != 's'
  }

  lemma HeadingIsBody(lib: Library, c: Consensus)
    requires lib.Sound()
    ensures forall l :: l in Heading(lib, c) ==> BodyLine(l)
  {
    WordIsTidy(lib.formatTime(c.validAfter));
    WordIsTidy(lib.formatTime(c.validUntil));
    var a, u := "valid-after " + lib.formatTime(c.validAfter), "valid-until " + lib.formatTime(c.validUntil);
    assert BodyLine(VERSION);
    assert BodyLine(a) && BodyLine(u);
  }

  lemma {:induction false} RelaysAreBody(lib: Library, es: seq<string>)
    requires lib.Sound() && "" !in es
    ensures forall l :: l in RelayLines(lib, es) ==> BodyLine(l)
    decreases |es|
  {
    if es != [] {
      RelayText(lib, es[0]);
      assert BodyLine(RelayLine(lib, es[0]));
      RelaysAreBody(lib, es[1..]);
    }
  }

  /** What the laws ask of a consensus in hand: a printable window and relays that came from the descriptor parser. */
  ghost predicate Printed(lib: Library, c: Consensus) {
    && lib.Sound() && lib.Printable(c.validAfter) && lib.Printable(c.validUntil)
    && AllFromParser(lib, c.relays) && Validate(lib, c)
  }

  /** The relays of a consensus in the order its body lists them. */
  ghost function Listed(lib: Library, c: Consensus): seq<D.Descriptor>
    requires Printed(lib, c)
  {
    SortedRelays(lib, c.relays);
    ParseAll(lib, Sort(EncodedAll(c.relays)))
  }

  lemma NoEmptyText(relays: seq<D.Descriptor>)
    requires forall d :: d in relays ==> D.Encoded(d) != ""
    ensures "" !in Sort(EncodedAll(relays))
  {
    SortCorrect(EncodedAll(relays));
    assert "" in Sort(EncodedAll(relays)) ==> "" in multiset(Sort(EncodedAll(relays)));
    assert forall i :: 0 <= i < |relays| ==> relays[i] in relays;
  }

  lemma BodyIsBodyLines(lib: Library, c: Consensus)
    requires lib.Sound() && forall d :: d in c.relays ==> D.Encoded(d) != ""
    ensures forall l :: l in BodyLines(lib, c) ==> BodyLine(l)
  {
    NoEmptyText(c.relays);
    HeadingIsBody(lib, c);
    RelaysAreBody(lib, Sort(EncodedAll(c.relays)));
    hide BodyLine, Heading, RelayLines, Sort, EncodedAll;
  }

  lemma BodyShape(lib: Library, c: Consensus)
    requires lib.Sound() && forall d :: d in c.relays ==> D.Encoded(d) != ""
    ensures Lines(Split(Body(lib, c))) == BodyLines(lib, c)
  {
    BodyIsBodyLines(lib, c);
    hide BodyLines, D.Encoded, Lines, Split, Join;
    var lines := BodyLines(lib, c);
    assert forall i :: 0 <= i < |lines| ==> lines[i] in lines;
    PrintedLines(lines);
  }

  /** Reading the canonical body gives the window and the relays in canonical order. */
  lemma ReadPrintedBody(lib: Library, c: Consensus)
    requires Printed(lib, c) && D.Fits(Split(Body(lib, c)), LINE_LIMIT)
    ensures ReadBody(lib, Body(lib, c)) ==
            Some(Reading(false, Some(c.validAfter), Some(c.validUntil), Listed(lib, c)))
  {
    var es := Sort(EncodedAll(c.relays));
    SortedRelays(lib, c.relays);
    NoEmptyText(c.relays);
    BodyShape(lib, c);
    hide Sort, EncodedAll, D.Encoded, Body, Heading, RelayLines;
    ReadHeading(lib, c);
    var r := Reading(false, Some(c.validAfter), Some(c.validUntil), []);
    ReadLinesAppend(lib, Heading(lib, c), RelayLines(lib, es), START);
    ReadRelays(lib, es, r);
    assert [] + ParseAll(lib, es) == ParseAll(lib, es);
  }

  // ---- where the body ends

  lemma {:induction false} NoLineStartsLikeASignature(lines: seq<string>, i: nat)
    requires (forall l :: l in lines ==> BodyLine(l)) && i + 1 < |Join(lines)|
    ensures Join(lines)[i] == '\n' ==> Join(lines)[i + 1] != 's'
    decreases |lines|
  {
    var body, l, tail := Join(lines), lines[0], Join(lines[1..]);
    assert body == l + "\n" + tail && l in lines;
    if i < |l| {
      assert body[i] == l[i] && l[i] in l;
    } else if i == |l| {
      assert lines[1] in lines;
      assert body[i + 1] == tail[0];
      assert tail == lines[1..][0] + "\n" + Join(lines[1..][1..]);
    } else {
      NoLineStartsLikeASignature(lines[1..], i - |l| - 1);
    }
  }

  lemma {:induction false} JoinEnds(lines: seq<string>)
    requires lines != []
    ensures Join(lines) != "" && Join(lines)[|Join(lines)| - 1] == '\n'
  {
    if |lines| == 1 {
      assert Join(lines) == lines[0] + "\n";
    } else {
      JoinEnds(lines[1..]);
    }
  }

  lemma MarkAfterBody(body: string, rest: string)
    requires body != "" && body[|body| - 1] == '\n' && D.SIGNATURE <= rest
    ensures At(body + rest, D.MARK, |body| - 1)
  {
    var text, b := body + rest, |body| - 1;
    assert text[b..b + 11] == [body[b]] + rest[..10];
    assert rest[..10] == D.SIGNATURE;
  }

  lemma MarkBegins(text: string, i: int)
    requires At(text, D.MARK, i)
    ensures 0 <= i && i + 1 < |text| && text[i] == '\n' && text[i + 1] == 's'
  {
    assert text[i] == text[i..i + 11][0] && text[i + 1] == text[i..i + 11][1];
  }

  /** The first mark of a document is the end of its body. */
  lemma MarkEndsBody(lines: seq<string>, rest: string)
    requires lines != [] && (forall l :: l in lines ==> BodyLine(l)) && D.SIGNATURE <= rest
    ensures Index(Join(lines) + rest, D.MARK) == Some(|Join(lines)| - 1)
  {
    var body := Join(lines);
    var text, b := body + rest, |body| - 1;
    JoinEnds(lines);
    MarkAfterBody(body, rest);
    hide Join, At, BodyLine;
    forall i | 0 <= i < b ensures !At(text, D.MARK, i) {
      assert text[i] == body[i] && text[i + 1] == body[i + 1];
      NoLineStartsLikeASignature(lines, i);
      if At(text, D.MARK, i) {
        MarkBegins(text, i);
      }
    }
  }

  /** A signature text that a line can carry. */
  predicate Carried(sig: string) {
    sig != "" && OneLine(sig) && !IsSpace(sig[|sig| - 1])
  }

  lemma ReadSignatureLine(fp: string, sig: string, sigs: map<string, string>)
    requires NoSpace(fp) && fp != "" && Carried(sig) && fp !in sigs
    ensures ReadSignature(SignatureLine(fp, sig), sigs) == Some(sigs[fp := sig])
  {
    var line, rest := SignatureLine(fp, sig), fp + " " + sig;
    WordIsTidy(fp);
    assert Tidy(line) && Tidy(rest);
    TidyUntouched(line);
    TidyUntouched(rest);
    assert line[..10] == D.SIGNATURE && line[10..] == rest;
    CutAt(fp, ' ', sig);
  }

  ghost predicate Readable(fps: seq<string>, sigs: map<string, string>) {
    forall fp :: fp in fps ==> fp in sigs && NoSpace(fp) && fp != "" && Carried(sigs[fp])
  }

  function Only(fps: seq<string>, sigs: map<string, string>): map<string, string> {
    map fp | fp in fps && fp in sigs :: sigs[fp]
  }

  lemma TakeOne(fps: seq<string>, sigs: map<string, string>, acc: map<string, string>)
    requires fps != [] && NoDup(fps) && forall fp :: fp in fps ==> fp in sigs && fp !in acc
    ensures forall fp :: fp in fps[1..] ==> fp !in acc[fps[0] := sigs[fps[0]]]
    ensures NoDup(fps[1..])
    ensures acc[fps[0] := sigs[fps[0]]] + Only(fps[1..], sigs) == acc + Only(fps, sigs)
  {
    assert forall f :: f in fps <==> f == fps[0] || f in fps[1..];
  }

  lemma NoMoreSignatures(acc: map<string, string>)
    ensures ReadSignatures([""], acc) == Some(acc)
  {
    assert [""][1..] == [];
  }

  lemma {:induction false} ReadSignatureLines(fps: seq<string>, sigs: map<string, string>, acc: map<string, string>)
    requires Readable(fps, sigs) && NoDup(fps) && forall fp :: fp in fps ==> fp !in acc
    ensures ReadSignatures(SignatureLines(fps, sigs) + [""], acc) == Some(acc + Only(fps, sigs))
    decreases |fps|
  {
    hide ReadSignature, SignatureLine, Carried, NoSpace;
    var lines := SignatureLines(fps, sigs) + [""];
    if fps == [] {
      assert lines == [""];
      NoMoreSignatures(acc);
      assert acc + Only([], sigs) == acc;
    } else {
      var fp, rest := fps[0], fps[1..];
      ReadSignatureLine(fp, sigs[fp], acc);
      TakeOne(fps, sigs, acc);
      hide NoDup, Only;
      assert lines[1..] == SignatureLines(rest, sigs) + [""];
      ReadSignatureLines(rest, sigs, acc[fp := sigs[fp]]);
    }
  }

  lemma {:induction false} SignatureLinesAreLines(fps: seq<string>, sigs: map<string, string>)
    requires Readable(fps, sigs)
    ensures AllOneLine(SignatureLines(fps, sigs))
    decreases |fps|
  {
    if fps != [] {
      WordIsTidy(fps[0]);
      SignatureLinesAreLines(fps[1..], sigs);
    }
  }

  lemma OrderedNoDup(fps: set<string>)
    ensures NoDup(Ordered(fps))
  {
    OrderedCorrect(fps);
    OrderedMembers(fps);
    assert Members(Ordered(fps)) == fps;
    NoDupIsSet(Ordered(fps));
  }

  /** The signature lines of a document read back as its signatures. */
  lemma ReadBackSignatures(sigs: map<string, string>)
    requires forall fp :: fp in sigs ==> NoSpace(fp) && fp != "" && Carried(sigs[fp])
    ensures (OrderedMembers(sigs.Keys);
             ReadSignatures(Split(Join(SignatureLines(Ordered(sigs.Keys), sigs))), map[]) == Some(sigs))
  {
    var fps := Ordered(sigs.Keys);
    OrderedMembers(sigs.Keys);
    OrderedNoDup(sigs.Keys);
    assert map[] + Only(fps, sigs) == sigs;
    SignatureLinesAreLines(fps, sigs);
    hide Carried, NoSpace, ReadSignatures, Join, NoDup, Ordered, Split, Only;
    var lines := SignatureLines(fps, sigs);
    hide SignatureLines;
    PlainSplit(lines);
    ReadSignatureLines(fps, sigs, map[]);
  }

  lemma PlainSplit(lines: seq<string>)
    requires AllOneLine(lines)
    ensures Split(Join(lines)) == lines + [""]
  {
    SplitJoin(lines, "");
    assert Join(lines) + "" == Join(lines);
  }

  lemma FirstSignature(fps: seq<string>, sigs: map<string, string>)
    requires fps != [] && forall fp :: fp in fps ==> fp in sigs
    ensures D.SIGNATURE <= Join(SignatureLines(fps, sigs))
  {
    var text := Join(SignatureLines(fps, sigs));
    assert text == SignatureLine(fps[0], sigs[fps[0]]) + "\n" + Join(SignatureLines(fps, sigs)[1..]);
    assert text[..10] == D.SIGNATURE;
  }

  /** A body followed by its signature lines comes apart into exactly those. */
  lemma SplitPrinted(lines: seq<string>, sigs: map<string, string>)
    requires lines != [] && (forall l :: l in lines ==> BodyLine(l))
    requires sigs != map[] && forall fp :: fp in sigs ==> NoSpace(fp) && fp != "" && Carried(sigs[fp])
    ensures (OrderedMembers(sigs.Keys);
             SplitSignatures(Join(lines) + Join(SignatureLines(Ordered(sigs.Keys), sigs))) == Some((Join(lines), sigs)))
  {
    var fps := Ordered(sigs.Keys);
    OrderedMembers(sigs.Keys);
    ReadBackSignatures(sigs);
    var fp :| fp in sigs;
    assert fp in fps;
    FirstSignature(fps, sigs);
    var body, rest := Join(lines), Join(SignatureLines(fps, sigs));
    MarkEndsBody(lines, rest);
    JoinEnds(lines);
    hide SignatureLines, Join, ReadSignatures, Split, Ordered, BodyLine, Carried, NoSpace, Index;
    assert (body + rest)[|body|..] == rest && (body + rest)[..|body|] == body;
  }
}
