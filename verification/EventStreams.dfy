/** The browser's incremental event-stream parser and the reader built on it. */
module EventStreams {
  import opened Prelude
  import opened Text

  // ---- block boundaries: an optional carriage return and a line feed, twice

  /** The length of a blank-line boundary at a position; zero when there is none. */
  function BoundaryAt(s: string, i: nat): (n: nat)
    requires i <= |s|
    ensures i + n <= |s| && (n > 0 ==> n >= 2)
  {
    var a := if i < |s| && s[i] == '\r' then i + 1 else i;
    if a >= |s| || s[a] != '\n' then 0
    else
      var b := if a + 1 < |s| && s[a + 1] == '\r' then a + 2 else a + 1;
      if b >= |s| || s[b] != '\n' then 0 else b + 1 - i
  }

  /** The leftmost boundary from a position on: where it starts. */
  function FirstBoundary(s: string, from: nat): (r: Option<nat>)
    requires from <= |s|
    ensures r.Some? ==> from <= r.value <= |s| && BoundaryAt(s, r.value) > 0 && forall j :: from <= j < r.value ==> BoundaryAt(s, j) == 0
    ensures r.None? ==> forall j :: from <= j <= |s| ==> BoundaryAt(s, j) == 0
    decreases |s| - from
  {
    if BoundaryAt(s, from) > 0 then Some(from) else if from == |s| then None else FirstBoundary(s, from + 1)
  }

  // ---- fields

  function DropCR(s: string): string {
    if s != "" && s[|s| - 1] == '\r' then s[..|s| - 1] else s
  }

  /** A block cut at line feeds, each with an optional carriage return before it. */
  function BlockLines(s: string): (lines: seq<string>)
    ensures lines != []
    decreases |s|
  {
    match Cut(s, '\n')
    case None => [s]
    case Some((line, rest)) => [DropCR(line)] + BlockLines(rest)
  }

  function DataOf(line: string): Option<string> {
    if line == "data" then Some("")
    else if HasPrefix(line, "data:") then
      var value := line[5..];
      Some(if HasPrefix(value, " ") then value[1..] else value)
    else None
  }

  function DataValues(lines: seq<string>): seq<string> {
    if lines == [] then []
    else
      match DataOf(lines[0])
      case None => DataValues(lines[1..])
      case Some(v) => [v] + DataValues(lines[1..])
  }

  function JoinLines(values: seq<string>): string
    requires values != []
  {
    if |values| == 1 then values[0] else values[0] + "\n" + JoinLines(values[1..])
  }

  /** The data of a block; None when it has no data line. */
  function EventData(block: string): Option<string> {
    var values := DataValues(BlockLines(block));
    if values == [] then None else Some(JoinLines(values))
  }

  function Payload(block: string): seq<string> {
    match EventData(block) case None => [] case Some(data) => [data]
  }

  // ---- the parser

  /** The payloads of the complete blocks of a text, and what is left over. */
  function Parse(text: string): (r: (seq<string>, string))
    decreases |text|
  {
    match FirstBoundary(text, 0)
    case None => ([], text)
    case Some(i) =>
      var (payloads, rest) := Parse(text[i + BoundaryAt(text, i)..]);
      (Payload(text[..i]) + payloads, rest)
  }

  lemma ParseStep(text: string)
    ensures FirstBoundary(text, 0).None? ==> Parse(text) == ([], text)
    ensures FirstBoundary(text, 0).Some? ==>
      var i := FirstBoundary(text, 0).value;
      var rest := text[i + BoundaryAt(text, i)..];
      |rest| < |text| && Parse(text).0 == Payload(text[..i]) + Parse(rest).0 && Parse(text).1 == Parse(rest).1
  {
    hide BoundaryAt, FirstBoundary, Payload;
  }

  class SSEParser {
    var buffer: string

    constructor ()
      ensures buffer == ""
    {
      buffer := "";
    }

    method Push(chunk: string) returns (events: seq<string>)
      modifies this
      ensures (events, buffer) == Parse(old(buffer) + chunk)
    {
      hide BoundaryAt, FirstBoundary, EventData, Parse;
      buffer := buffer + chunk;
      events := [];
      ghost var whole := Parse(buffer);
      assert events + whole.0 == whole.0;
      var boundary := FirstBoundary(buffer, 0);
      while boundary.Some?
        invariant boundary == FirstBoundary(buffer, 0)
        invariant whole.0 == events + Parse(buffer).0 && whole.1 == Parse(buffer).1
        decreases |buffer|
      {
        var i := boundary.value;
        var block, size := buffer[..i], BoundaryAt(buffer, i);
        ParseStep(buffer);
        ghost var rest := Parse(buffer[i + size..]).0;
        buffer := buffer[i + size..];
        var data := EventData(block);
        assert (events + Payload(block)) + rest == events + (Payload(block) + rest);
        assert events + [] == events;
        if data.Some? { events := events + [data.value]; }
        boundary := FirstBoundary(buffer, 0);
      }
      ParseStep(buffer);
      assert events + [] == events;
    }

    method Finish() returns (events: seq<string>)
      modifies this
      ensures buffer == "" && events == if old(buffer) == "" then [] else Payload(old(buffer))
    {
      if buffer == "" { return []; }
      var block := buffer;
      buffer := "";
      return Payload(block);
    }
  }

  // ---- how the text is divided does not matter

  /** Text that arrives later neither moves nor lengthens a boundary that was already complete. */
  lemma BoundaryStable(a: string, b: string, i: nat)
    requires i <= |a| && BoundaryAt(a, i) > 0
    ensures BoundaryAt(a + b, i) == BoundaryAt(a, i)
  {
  }

  /** A boundary that later text completes cannot start before one that is complete already. */
  lemma NoEarlierBoundary(a: string, b: string, i: nat, j: nat)
    requires j < i <= |a| && BoundaryAt(a, i) > 0 && BoundaryAt(a, j) == 0
    ensures BoundaryAt(a + b, j) == 0
  {
    var s := a + b;
    assert forall k :: 0 <= k < |a| ==> s[k] == a[k];
  }

  lemma FirstBoundaryStable(a: string, b: string)
    requires FirstBoundary(a, 0).Some?
    ensures FirstBoundary(a + b, 0) == FirstBoundary(a, 0)
  {
    var i := FirstBoundary(a, 0).value;
    BoundaryStable(a, b, i);
    forall j | 0 <= j < i ensures BoundaryAt(a + b, j) == 0 {
      NoEarlierBoundary(a, b, i, j);
    }
    hide BoundaryAt;
  }

  /** Parsing a text in two pieces gives the same payloads and the same remainder as parsing it at once. */
  lemma {:induction false} ParseInPieces(a: string, b: string)
    ensures Parse(a + b).0 == Parse(a).0 + Parse(Parse(a).1 + b).0
    ensures Parse(a + b).1 == Parse(Parse(a).1 + b).1
    decreases |a|
  {
    hide BoundaryAt, FirstBoundary, Payload, Parse;
    ParseStep(a);
    ParseStep(a + b);
    if FirstBoundary(a, 0).Some? {
      var i := FirstBoundary(a, 0).value;
      var size := BoundaryAt(a, i);
      FirstBoundaryStable(a, b);
      BoundaryStable(a, b, i);
      var tail := a[i + size..];
      ParseInPieces(tail, b);
      assert (a + b)[..i] == a[..i] && (a + b)[i + size..] == tail + b;
      assert Parse(a + b).0 == Payload(a[..i]) + Parse(tail + b).0;
      assert Parse(a).0 == Payload(a[..i]) + Parse(tail).0;
    } else {
      assert Parse(a) == ([], a);
      assert [] + Parse(a + b).0 == Parse(a + b).0;
    }
  }

  /** What a parser has given out, and what it still holds, after being pushed these pieces. */
  function PushAll(pieces: seq<string>): (seq<string>, string) {
    if pieces == [] then ([], "")
    else
      var (events, buffer) := PushAll(pieces[..|pieces| - 1]);
      var (more, rest) := Parse(buffer + pieces[|pieces| - 1]);
      (events + more, rest)
  }

  function Whole(pieces: seq<string>): string {
    if pieces == [] then "" else Whole(pieces[..|pieces| - 1]) + pieces[|pieces| - 1]
  }

  lemma {:induction false} PushAllIsParse(pieces: seq<string>)
    ensures PushAll(pieces) == Parse(Whole(pieces))
  {
    hide Parse;
    if pieces == [] {
      ParseStep("");
    } else {
      var init := pieces[..|pieces| - 1];
      PushAllIsParse(init);
      ParseInPieces(Whole(init), pieces[|pieces| - 1]);
    }
  }

  /** The same text in any two divisions gives the same payloads and the same remainder. */
  lemma DivisionIsIrrelevant(a: seq<string>, b: seq<string>)
    requires Whole(a) == Whole(b)
    ensures PushAll(a) == PushAll(b)
  {
    PushAllIsParse(a);
    PushAllIsParse(b);
  }

  // ---- data of several lines

  /** A block that carries a text of several lines, one data field each. */
  function DataBlock(lines: seq<string>): string
    requires lines != []
  {
    if |lines| == 1 then "data: " + lines[0] else "data: " + lines[0] + "\n" + DataBlock(lines[1..])
  }

  predicate Plain(line: string) {
    '\n' !in line && (line == "" || line[|line| - 1] != '\r')
  }

  lemma FieldLine(line: string)
    requires Plain(line)
    ensures Plain("data: " + line) && DropCR("data: " + line) == "data: " + line && DataOf("data: " + line) == Some(line)
  {
    assert ("data: " + line)[5..] == " " + line && (" " + line)[1..] == line;
  }

  lemma {:induction false} CutNone(s: string)
    requires '\n' !in s
    ensures Cut(s, '\n') == None
  {
    if s != "" {
      CutNone(s[1..]);
    }
  }

  /** The data of such a block is that text, line for line. */
  lemma {:induction false} DataBlockReads(lines: seq<string>)
    requires lines != [] && forall i :: 0 <= i < |lines| ==> Plain(lines[i])
    ensures DataValues(BlockLines(DataBlock(lines))) == lines && EventData(DataBlock(lines)) == Some(JoinLines(lines))
    decreases |lines|
  {
    var field, none := "data: " + lines[0], [];
    FieldLine(lines[0]);
    hide DataOf, DropCR;
    if |lines| == 1 {
      CutNone(field);
      assert BlockLines(field) == [field];
      assert [field][1..] == none && DataValues(none) == none;
      assert DataValues([field]) == [lines[0]] + none == lines;
    } else {
      var rest := DataBlock(lines[1..]);
      DataBlockReads(lines[1..]);
      assert DataBlock(lines) == field + ['\n'] + rest;
      CutAt(field, '\n', rest);
      assert BlockLines(DataBlock(lines)) == [field] + BlockLines(rest);
      assert ([field] + BlockLines(rest))[1..] == BlockLines(rest);
      assert DataValues(BlockLines(DataBlock(lines))) == [lines[0]] + lines[1..] == lines;
    }
  }

  // ---- any block, with either kind of line end

  lemma FirstBoundaryIs(s: string, i: nat)
    requires i <= |s| && BoundaryAt(s, i) > 0 && forall j :: 0 <= j < i ==> BoundaryAt(s, j) == 0
    ensures FirstBoundary(s, 0) == Some(i)
  {
    hide BoundaryAt;
  }

  // A line of a block: data with or without the optional space, the bare field name, or anything else.
  datatype Field = Data(value: string, spaced: bool) | BareData | Ignored(line: string)

  // A line and whether a carriage return precedes its line feed.
  datatype Wire = Wire(field: Field, crlf: bool)

  function LineOf(f: Field): string {
    match f
    case Data(value, spaced) => "data:" + (if spaced then " " else "") + value
    case BareData => "data"
    case Ignored(line) => line
  }

  predicate NoLineEnd(s: string) {
    '\n' !in s && '\r' !in s
  }

  predicate Proper(f: Field) {
    match f
    case Data(value, spaced) => NoLineEnd(value) && (!spaced ==> !HasPrefix(value, " "))
    case BareData => true
    case Ignored(line) => line != "" && NoLineEnd(line) && line != "data" && !HasPrefix(line, "data:")
  }

  predicate AllProper(wires: seq<Wire>) {
    forall i :: 0 <= i < |wires| ==> Proper(wires[i].field)
  }

  function End(crlf: bool): string {
    if crlf then "\r\n" else "\n"
  }

  /** The block without its last line end. */
  function BlockOf(wires: seq<Wire>): string
    requires wires != []
  {
    if |wires| == 1 then LineOf(wires[0].field) else LineOf(wires[0].field) + End(wires[0].crlf) + BlockOf(wires[1..])
  }

  /** What the block says: its data values, whatever else it holds. */
  function Said(wires: seq<Wire>): seq<string> {
    if wires == [] then []
    else
      (match wires[0].field case Data(value, _) => [value] case BareData => [""] case Ignored(_) => []) + Said(wires[1..])
  }

  lemma LineIsPlain(f: Field)
    requires Proper(f)
    ensures LineOf(f) != "" && NoLineEnd(LineOf(f))
    ensures DataOf(LineOf(f)) == match f case Data(value, _) => Some(value) case BareData => Some("") case Ignored(_) => None
  {
    if f.Data? {
      var space := if f.spaced then " " else "";
      assert LineOf(f)[5..] == space + f.value;
      assert f.spaced ==> (" " + f.value)[1..] == f.value;
      assert "" + f.value == f.value;
    }
  }

  lemma FirstLine(line: string, crlf: bool, rest: string)
    requires NoLineEnd(line)
    ensures BlockLines(line + End(crlf) + rest) == [line] + BlockLines(rest)
  {
    var before := if crlf then line + "\r" else line;
    assert line + End(crlf) + rest == before + ['\n'] + rest;
    CutAt(before, '\n', rest);
    assert crlf ==> before[..|before| - 1] == line;
    assert DropCR(before) == line;
  }

  lemma FirstValue(line: string, rest: seq<string>)
    ensures DataValues([line] + rest) == (match DataOf(line) case None => [] case Some(v) => [v]) + DataValues(rest)
  {
    hide DataOf;
    assert ([line] + rest)[1..] == rest;
  }

  lemma {:induction false} BlockSays(wires: seq<Wire>)
    requires wires != [] && AllProper(wires)
    ensures DataValues(BlockLines(BlockOf(wires))) == Said(wires)
    decreases |wires|
  {
    var line, f := LineOf(wires[0].field), wires[0].field;
    LineIsPlain(f);
    hide LineOf, DataOf, BlockLines, End, DropCR, NoLineEnd, Proper, DataValues;
    if |wires| == 1 {
      OneLineBlock(line);
      FirstValue(line, []);
      assert [line] + [] == [line];
      NoValues();
      assert Said(wires[1..]) == [];
    } else {
      var rest := BlockOf(wires[1..]);
      BlockSays(wires[1..]);
      FirstLine(line, wires[0].crlf, rest);
      FirstValue(line, BlockLines(rest));
    }
  }

  lemma NoValues()
    ensures DataValues([]) == []
  {
  }

  lemma OneLineBlock(line: string)
    requires NoLineEnd(line)
    ensures BlockLines(line) == [line]
  {
    CutNone(line);
  }

  /** Whether a boundary begins somewhere depends only on what follows. */
  lemma BoundaryShift(before: string, rest: string, j: nat)
    requires j <= |rest|
    ensures BoundaryAt(before + rest, |before| + j) == BoundaryAt(rest, j)
  {
    var s, i := before + rest, |before| + j;
    assert forall k :: 0 <= k < |rest| ==> s[|before| + k] == rest[k];
    assert j < |rest| ==> s[i] == rest[j];
    assert j + 1 < |rest| ==> s[i + 1] == rest[j + 1];
    assert j + 2 < |rest| ==> s[i + 2] == rest[j + 2];
    assert j + 3 < |rest| ==> s[i + 3] == rest[j + 3];
  }

  /** No boundary begins inside a line. */
  lemma NoneInLine(line: string, after: string, j: nat)
    requires NoLineEnd(line) && j < |line|
    ensures BoundaryAt(line + after, j) == 0
  {
    assert (line + after)[j] == line[j] && line[j] in line;
  }

  /** Nor at its end, when another line follows. */
  lemma NoneAtEnd(line: string, crlf: bool, rest: string, j: nat)
    requires NoLineEnd(line) && rest != "" && rest[0] != '\n' && rest[0] != '\r' && |line| <= j < |line| + |End(crlf)|
    ensures BoundaryAt(line + (End(crlf) + rest), j) == 0
  {
    BoundaryShift(line, End(crlf) + rest, j - |line|);
    var s := End(crlf) + rest;
    assert s[|End(crlf)|] == rest[0];
  }

  /** The first boundary after a block is its last line end with the blank line. */
  lemma {:induction false} BlockIsCut(wires: seq<Wire>, crlf: bool, rest: string)
    requires wires != [] && AllProper(wires)
    ensures var block, last := BlockOf(wires), End(wires[|wires| - 1].crlf);
      var text := block + (last + End(crlf) + rest);
      && (forall j :: 0 <= j < |block| ==> BoundaryAt(text, j) == 0)
      && BoundaryAt(text, |block|) == |last + End(crlf)|
      && block != "" && block[0] != '\n' && block[0] != '\r'
    decreases |wires|
  {
    var line, after := LineOf(wires[0].field), End(wires[|wires| - 1].crlf) + End(crlf) + rest;
    LineIsPlain(wires[0].field);
    assert line[0] in line;
    hide LineOf, DataOf, BoundaryAt, NoLineEnd, Proper, End;
    if |wires| == 1 {
      LineBeforeBlank(line, wires[0].crlf, crlf, rest);
    } else {
      var tail := BlockOf(wires[1..]);
      BlockIsCut(wires[1..], crlf, rest);
      BlockAfterLine(line, wires[0].crlf, tail, after);
    }
  }

  lemma BlockAfterLine(line: string, crlf: bool, tail: string, after: string)
    requires line != "" && NoLineEnd(line) && tail != "" && tail[0] != '\n' && tail[0] != '\r'
    requires forall j :: 0 <= j < |tail| ==> BoundaryAt(tail + after, j) == 0
    ensures var block := line + End(crlf) + tail;
      && (forall j :: 0 <= j < |block| ==> BoundaryAt(block + after, j) == 0)
      && BoundaryAt(block + after, |block|) == BoundaryAt(tail + after, |tail|)
      && block[0] == line[0]
  {
    var block, n := line + End(crlf) + tail, |line| + |End(crlf)|;
    var text := block + after;
    hide BoundaryAt, NoLineEnd, End;
    assert text == line + (End(crlf) + (tail + after));
    assert text == (line + End(crlf)) + (tail + after);
    forall j | 0 <= j < |block| ensures BoundaryAt(text, j) == 0 {
      if j < |line| {
        NoneInLine(line, End(crlf) + (tail + after), j);
      } else if j < n {
        NoneAtEnd(line, crlf, tail + after, j);
      } else {
        BoundaryShift(line + End(crlf), tail + after, j - n);
      }
    }
    BoundaryShift(line + End(crlf), tail + after, |tail|);
  }

  lemma LineBeforeBlank(line: string, last: bool, crlf: bool, rest: string)
    requires line != "" && NoLineEnd(line)
    ensures var text := line + (End(last) + End(crlf) + rest);
      (forall j :: 0 <= j < |line| ==> BoundaryAt(text, j) == 0) && BoundaryAt(text, |line|) == |End(last) + End(crlf)|
  {
    var ends := End(last) + End(crlf);
    assert End(last) + End(crlf) + rest == ends + rest;
    forall j | 0 <= j < |line| ensures BoundaryAt(line + (ends + rest), j) == 0 {
      NoneInLine(line, ends + rest, j);
    }
    BoundaryShift(line, ends + rest, 0);
    assert forall j :: 0 <= j < |ends| ==> (ends + rest)[j] == ends[j];
  }

  /**
   * Any block of an event stream, whatever fields it has and whether its lines end in a line feed with or without a carriage
   * return before it, is read as its data values joined line by line, or as nothing when it has none, and reading goes on
   * right after the blank line.
   */
  lemma BlockReads(wires: seq<Wire>, crlf: bool, rest: string)
    requires wires != [] && AllProper(wires)
    ensures var text := BlockOf(wires) + (End(wires[|wires| - 1].crlf) + End(crlf) + rest);
      && Parse(text).0 == (if Said(wires) == [] then [] else [JoinLines(Said(wires))]) + Parse(rest).0
      && Parse(text).1 == Parse(rest).1
  {
    hide *;
    var block, ends := BlockOf(wires), End(wires[|wires| - 1].crlf) + End(crlf);
    var text := block + (ends + rest);
    BlockSays(wires);
    BlockIsCut(wires, crlf, rest);
    EndIsSomething(crlf);
    FirstBoundaryIs(text, |block|);
    ParseStep(text);
    PayloadIs(block, Said(wires));
    assert text[..|block|] == block && text[|block| + |ends|..] == rest;
  }

  lemma EndIsSomething(crlf: bool)
    ensures End(crlf) != ""
  {
  }

  lemma PayloadIs(block: string, values: seq<string>)
    requires DataValues(BlockLines(block)) == values
    ensures Payload(block) == if values == [] then [] else [JoinLines(values)]
  {
    hide DataValues, BlockLines, JoinLines;
  }

  // ---- reading

  // What a payload means to the reader: text, perhaps the end, or an error to throw.
  datatype Delta = Delta(done: bool, text: string) | Throws(message: string)

  datatype Reading = Reading(text: string, terminal: bool, thrown: Option<string>)

  const NOTHING_READ: Reading := Reading("", false, None)

  predicate Over(r: Reading) {
    r.terminal || r.thrown.Some?
  }

  function Consume(meaning: string -> Delta, r: Reading, payloads: seq<string>): Reading
    decreases |payloads|
  {
    if payloads == [] || Over(r) then r
    else
      match meaning(payloads[0])
      case Throws(message) => r.(thrown := Some(message))
      case Delta(done, text) => Consume(meaning, Reading(r.text + text, done, None), payloads[1..])
  }

  lemma {:induction false} ConsumeConcat(meaning: string -> Delta, r: Reading, a: seq<string>, b: seq<string>)
    ensures Consume(meaning, r, a + b) == Consume(meaning, Consume(meaning, r, a), b)
    decreases |a|
  {
    if a == [] {
      assert a + b == b;
    } else {
      assert (a + b)[1..] == a[1..] + b;
      if !Over(r) && meaning(a[0]).Delta? {
        ConsumeConcat(meaning, Reading(r.text + meaning(a[0]).text, meaning(a[0]).done, None), a[1..], b);
      }
    }
  }

  // The response: its text in the pieces it arrived in, and whether it then ends or breaks off.
  datatype Response = Response(pieces: seq<string>, breaks: bool)

  // How a read ends: confirmed complete, ended early, thrown by the provider, or broken off.
  datatype Ending = Complete | Unconfirmed | ProviderError(message: string) | Broken

  /** What reading a whole text gives, however it arrives. */
  function ReadText(meaning: string -> Delta, text: string, breaks: bool): (string, Ending) {
    var (payloads, rest) := Parse(text);
    var r := Consume(meaning, NOTHING_READ, payloads);
    var last := if breaks || rest == "" then r else Consume(meaning, r, Payload(rest));
    (last.text,
     if last.thrown.Some? then ProviderError(last.thrown.value) else if last.terminal then Complete
     else if breaks then Broken else Unconfirmed)
  }

  /** The reader, piece by piece: its result is that of the undivided text. */
  method ReadProviderTextStream(meaning: string -> Delta, body: Response) returns (text: string, ending: Ending)
    ensures (text, ending) == ReadText(meaning, Whole(body.pieces), body.breaks)
  {
    hide Parse, Consume, Payload;
    var parser := new SSEParser();
    StartsEmpty(meaning);
    var r, n := NOTHING_READ, 0;
    while n < |body.pieces| && !Over(r)
      invariant 0 <= n <= |body.pieces|
      invariant parser.buffer == Parse(Whole(body.pieces[..n])).1
      invariant r == Consume(meaning, NOTHING_READ, Parse(Whole(body.pieces[..n])).0)
    {
      ghost var sofar := Whole(body.pieces[..n]);
      assert body.pieces[..n + 1][..n] == body.pieces[..n];
      ParseInPieces(sofar, body.pieces[n]);
      var payloads := parser.Push(body.pieces[n]);
      ConsumeConcat(meaning, NOTHING_READ, Parse(sofar).0, payloads);
      r := Consume(meaning, r, payloads);
      n := n + 1;
    }
    StoppedEarly(meaning, body.pieces, n, body.breaks);
    if !Over(r) && !body.breaks {
      var payloads := parser.Finish();
      r := Consume(meaning, r, payloads);
    }
    return r.text, if r.thrown.Some? then ProviderError(r.thrown.value) else if r.terminal then Complete
                   else if body.breaks then Broken else Unconfirmed;
  }

  lemma StartsEmpty(meaning: string -> Delta)
    ensures Parse("") == ([], "") && forall r :: Consume(meaning, r, []) == r
  {
  }

  lemma {:induction false} WholeSplit(pieces: seq<string>, n: nat)
    requires n <= |pieces|
    ensures exists rest :: Whole(pieces) == Whole(pieces[..n]) + rest
    decreases |pieces|
  {
    if n == |pieces| {
      assert pieces[..n] == pieces && Whole(pieces) == Whole(pieces) + "";
    } else {
      var init := pieces[..|pieces| - 1];
      WholeSplit(init, n);
      assert init[..n] == pieces[..n];
      var rest :| Whole(init) == Whole(pieces[..n]) + rest;
      assert Whole(pieces) == Whole(pieces[..n]) + (rest + pieces[|pieces| - 1]);
    }
  }

  /** Once the outcome is settled, the text not yet read cannot change it; and at the end there is none. */
  lemma StoppedEarly(meaning: string -> Delta, pieces: seq<string>, n: nat, breaks: bool)
    requires n <= |pieces|
    ensures var r := Consume(meaning, NOTHING_READ, Parse(Whole(pieces[..n])).0);
            && (Over(r) ==>
                  ReadText(meaning, Whole(pieces), breaks) == (r.text, if r.thrown.Some? then ProviderError(r.thrown.value) else Complete))
            && (n == |pieces| ==> pieces[..n] == pieces)
  {
    WholeSplit(pieces, n);
    var rest :| Whole(pieces) == Whole(pieces[..n]) + rest;
    ParseInPieces(Whole(pieces[..n]), rest);
    var before, after := Parse(Whole(pieces[..n])), Parse(Parse(Whole(pieces[..n])).1 + rest);
    ConsumeConcat(meaning, NOTHING_READ, before.0, after.0);
  }

  // ---- how a stream may end

  lemma {:induction false} NoBoundaryInside(wires: seq<Wire>)
    requires wires != [] && AllProper(wires)
    ensures forall j :: 0 <= j <= |BlockOf(wires)| ==> BoundaryAt(BlockOf(wires), j) == 0
  {
    var block := BlockOf(wires);
    BlockIsCut(wires, false, "");
    var text := block + (End(wires[|wires| - 1].crlf) + End(false) + "");
    forall j | 0 <= j <= |block| ensures BoundaryAt(block, j) == 0 {
      assert forall k :: 0 <= k < |block| ==> text[k] == block[k];
      if j < |block| && BoundaryAt(block, j) > 0 {
        BoundaryStable(block, End(wires[|wires| - 1].crlf) + End(false) + "", j);
      }
    }
  }

  /** A last block that no blank line ends is read all the same when the response ends, and is not when it breaks off. */
  lemma UnterminatedBlockIsRead(meaning: string -> Delta, wires: seq<Wire>, breaks: bool)
    requires wires != [] && AllProper(wires)
    ensures var payloads := if breaks || Said(wires) == [] then [] else [JoinLines(Said(wires))];
      var r := Consume(meaning, NOTHING_READ, payloads);
      ReadText(meaning, BlockOf(wires), breaks) ==
        (r.text, if r.thrown.Some? then ProviderError(r.thrown.value) else if r.terminal then Complete
                 else if breaks then Broken else Unconfirmed)
  {
    var block := BlockOf(wires);
    NoBoundaryInside(wires);
    BlockSays(wires);
    BlockIsCut(wires, false, "");
    hide BoundaryAt, FirstBoundary, BlockLines, DataValues, Parse, BlockOf, End, Said;
    PayloadIs(block, Said(wires));
    ParseStep(block);
    StartsEmpty(meaning);
    hide Payload, Consume, JoinLines;
  }

  /** Data of several lines is those lines with line feeds between them. */
  lemma {:induction false} JoinedApart(values: seq<string>)
    requires values != [] && forall i :: 0 <= i < |values| ==> '\n' !in values[i]
    ensures Split(JoinLines(values)) == values
    decreases |values|
  {
    if |values| == 1 {
      CutNone(values[0]);
    } else {
      JoinedApart(values[1..]);
      SplitLine(values[0], JoinLines(values[1..]));
    }
  }
}
