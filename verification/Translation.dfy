/** Rewriting a provider's stream into Messages events, and what the browser then reads. */
module Translation {
  import opened Prelude
  import opened Text
  import opened EventStreams

  // ---- the provider's side

  datatype Usage = Usage(prompt: int, completion: int)

  datatype Choice = Choice(content: string, finish: string)

  // One decoded data line: the parts the translator looks at.
  datatype Chunk = Chunk(error: Option<string>, usage: Option<Usage>, groq: Option<Usage>, choices: seq<Choice>)

  // ---- the events it emits

  datatype Event =
    | MessageStart
    | BlockStart
    | TextDelta(text: string)
    | BlockStop
    | MessageDelta(stop: string, outputTokens: int, inputTokens: Option<int>)
    | MessageStop
    | ErrorEvent(message: string)

  function EventName(e: Event): string {
    match e
    case MessageStart => "message_start"
    case BlockStart => "content_block_start"
    case TextDelta(_) => "content_block_delta"
    case BlockStop => "content_block_stop"
    case MessageDelta(_, _, _) => "message_delta"
    case MessageStop => "message_stop"
    case ErrorEvent(_) => "error"
  }

  // ---- the browser's side: the parts of a parsed payload it looks at

  datatype BrowserChoice = BrowserChoice(finish: Option<string>, content: Option<string>)

  datatype View =
    | NotJson
    | NullValue
    | Value(error: Option<string>, choices: seq<BrowserChoice>, eventType: string, deltaType: string, deltaText: Option<string>)

  /** What the browser sees in an emitted event. */
  function Shown(e: Event): View {
    Value(if e.ErrorEvent? then Some(e.message) else None, [], EventName(e), if e.TextDelta? then "text_delta" else "",
          if e.TextDelta? then Some(e.text) else None)
  }

  // JSON on both sides, with the laws assumed of it.
  datatype Codec = Codec(decode: string -> Option<Chunk>, encode: Event -> string, view: string -> View) {
    /** What is encoded is one line that starts like an object, and reads back as what was encoded. */
    ghost predicate Sound() {
      forall e :: view(encode(e)) == Shown(e) && HasPrefix(encode(e), "{") && '\n' !in encode(e) && '\r' !in encode(e)
    }
  }

  function ProviderTextDelta(codec: Codec, payload: string): Delta {
    if payload == "[DONE]" then Delta(true, "")
    else
      match codec.view(payload)
      case NotJson => Delta(false, "")
      case NullValue => Throws("not an object")
      case Value(error, choices, eventType, deltaType, deltaText) =>
        if error.Some? then Throws(if error.value == "" then "the provider returned an error" else error.value)
        else if choices != [] then
          Delta(choices[0].finish.Some? && choices[0].finish.value != "",
                if choices[0].content.Some? then choices[0].content.value else "")
        else
          Delta(eventType == "message_stop",
                if eventType == "content_block_delta" && deltaType == "text_delta" && deltaText.Some? then deltaText.value else "")
  }

  // ---- translating

  function StopReason(finish: string): string {
    if finish == "length" then "max_tokens"
    else if finish == "stop" || finish == "" then "end_turn"
    else if finish == "content_filter" then "refusal"
    else if finish == "tool_calls" || finish == "function_call" then "tool_use"
    else finish
  }

  /** The chunk a line of the stream carries, if any. */
  function ChunkOf(codec: Codec, line: string): Option<Chunk> {
    var t := TrimSpace(line);
    if !HasPrefix(t, "data:") then None
    else
      var payload := TrimSpace(t[5..]);
      if payload == "" || payload == "[DONE]" then None else codec.decode(payload)
  }

  datatype State = State(stop: string, produced: nat, reported: int, prompt: int, events: seq<Event>, failed: bool)

  function Count(s: State, u: Option<Usage>): (t: State)
    ensures t.events == s.events && t.failed == s.failed && t.stop == s.stop && t.produced == s.produced
  {
    match u
    case None => s
    case Some(u) =>
      var t := if u.completion > 0 then s.(reported := u.completion) else s;
      if u.prompt > 0 then t.(prompt := u.prompt) else t
  }

  const DEFAULT_ERROR: string := "the provider reported an error partway through the response"

  function OrDefault(s: string, fallback: string): string {
    if s == "" then fallback else s
  }

  function StepLine(codec: Codec, s: State, line: string): State {
    match ChunkOf(codec, line)
    case None => s
    case Some(c) =>
      if c.error.Some? then s.(events := s.events + [ErrorEvent(OrDefault(c.error.value, DEFAULT_ERROR))], failed := true)
      else
        var t := Count(Count(s, c.usage), c.groq);
        if c.choices == [] then t
        else
          var u := if c.choices[0].finish != "" then t.(stop := StopReason(c.choices[0].finish)) else t;
          if c.choices[0].content == "" then u
          else u.(produced := u.produced + 1, events := u.events + [TextDelta(c.choices[0].content)])
  }

  function StepLines(codec: Codec, s: State, lines: seq<string>): State
    decreases |lines|
  {
    if lines == [] || s.failed then s else StepLines(codec, StepLine(codec, s, lines[0]), lines[1..])
  }

  const START: State := State("end_turn", 0, 0, 0, [MessageStart, BlockStart], false)

  function Closing(s: State): seq<Event> {
    [BlockStop,
     MessageDelta(s.stop, if s.reported > 0 then s.reported else s.produced, if s.prompt > 0 then Some(s.prompt) else None),
     MessageStop]
  }

  /** The events of a whole stream; broken says that reading the provider failed. */
  function Translate(codec: Codec, lines: seq<string>, broken: bool): seq<Event> {
    var s := StepLines(codec, START, lines);
    if s.failed || broken then s.events else s.events + Closing(s)
  }

  function Frame(codec: Codec, e: Event): string {
    "event: " + EventName(e) + "\ndata: " + codec.encode(e) + "\n\n"
  }

  function Render(codec: Codec, events: seq<Event>): string {
    if events == [] then "" else Frame(codec, events[0]) + Render(codec, events[1..])
  }

  lemma {:induction false} RenderConcat(codec: Codec, a: seq<Event>, b: seq<Event>)
    ensures Render(codec, a + b) == Render(codec, a) + Render(codec, b)
    decreases |a|
  {
    if a == [] {
      assert a + b == b;
    } else {
      assert (a + b)[1..] == a[1..] + b;
      RenderConcat(codec, a[1..], b);
      hide Frame;
    }
  }

  lemma RenderOne(codec: Codec, events: seq<Event>, e: Event)
    ensures Render(codec, events + [e]) == Render(codec, events) + Frame(codec, e)
  {
    RenderConcat(codec, events, [e]);
    var none: seq<Event> := [];
    assert [e][1..] == none;
    hide Frame;
    assert Render(codec, [e]) == Frame(codec, e) + "" == Frame(codec, e);
  }

  /** The translator: each event is written as soon as it is known. The result is the text and whether it broke off. */
  method StreamFromOpenAI(codec: Codec, lines: seq<string>, broken: bool) returns (out: string, breaks: bool)
    ensures out == Render(codec, Translate(codec, lines, broken))
    ensures breaks == (broken && !StepLines(codec, START, lines).failed)
  {
    hide Frame, Render, TrimSpace;
    ghost var events := [];
    out := Frame(codec, MessageStart) + Frame(codec, BlockStart);
    Opening(codec);
    var stop, produced, reported, prompt, n := "end_turn", 0, 0, 0, 0;
    events := [MessageStart, BlockStart];
    while n < |lines|
      invariant 0 <= n <= |lines|
      invariant out == Render(codec, events)
      invariant StepLines(codec, State(stop, produced, reported, prompt, events, false), lines[n..]) == StepLines(codec, START, lines)
    {
      ghost var before := State(stop, produced, reported, prompt, events, false);
      assert lines[n..][1..] == lines[n + 1..];
      var chunk := ChunkOf(codec, lines[n]);
      n := n + 1;
      if chunk.None? { continue; }
      var c := chunk.value;
      if c.error.Some? {
        var message := c.error.value;
        if message == "" { message := DEFAULT_ERROR; }
        RenderOne(codec, events, ErrorEvent(message));
        out := out + Frame(codec, ErrorEvent(message));
        return out, false;
      }
      if c.usage.Some? {
        if c.usage.value.completion > 0 { reported := c.usage.value.completion; }
        if c.usage.value.prompt > 0 { prompt := c.usage.value.prompt; }
      }
      if c.groq.Some? {
        if c.groq.value.completion > 0 { reported := c.groq.value.completion; }
        if c.groq.value.prompt > 0 { prompt := c.groq.value.prompt; }
      }
      if c.choices == [] { continue; }
      if c.choices[0].finish != "" { stop := StopReason(c.choices[0].finish); }
      var text := c.choices[0].content;
      if text == "" { continue; }
      produced := produced + 1;
      RenderOne(codec, events, TextDelta(text));
      out := out + Frame(codec, TextDelta(text));
      events := events + [TextDelta(text)];
    }
    assert lines[n..] == [];
    ghost var s := State(stop, produced, reported, prompt, events, false);
    if broken { return out, true; }
    var tokens := if reported > 0 then reported else produced;
    var delta := MessageDelta(stop, tokens, if prompt > 0 then Some(prompt) else None);
    RenderOne(codec, events, BlockStop);
    RenderOne(codec, events + [BlockStop], delta);
    RenderOne(codec, events + [BlockStop] + [delta], MessageStop);
    assert events + Closing(s) == events + [BlockStop] + [delta] + [MessageStop];
    out := out + Frame(codec, BlockStop) + Frame(codec, delta) + Frame(codec, MessageStop);
    return out, false;
  }

  lemma Opening(codec: Codec)
    ensures Frame(codec, MessageStart) + Frame(codec, BlockStart) == Render(codec, [MessageStart, BlockStart])
  {
    var none: seq<Event> := [];
    RenderOne(codec, none, MessageStart);
    RenderOne(codec, none + [MessageStart], BlockStart);
    assert none + [MessageStart] + [BlockStart] == [MessageStart, BlockStart];
    hide Frame;
  }

  // ---- what it means

  /** Everything the provider said, in order, up to the first chunk that reports an error. */
  function Spoken(codec: Codec, lines: seq<string>): string {
    if lines == [] then ""
    else
      match ChunkOf(codec, lines[0])
      case None => Spoken(codec, lines[1..])
      case Some(c) =>
        if c.error.Some? then ""
        else (if c.choices == [] then "" else c.choices[0].content) + Spoken(codec, lines[1..])
  }

  /** The first error the provider reports. */
  function ReportedError(codec: Codec, lines: seq<string>): Option<string> {
    if lines == [] then None
    else
      match ChunkOf(codec, lines[0])
      case Some(c) => if c.error.Some? then Some(OrDefault(c.error.value, DEFAULT_ERROR)) else ReportedError(codec, lines[1..])
      case None => ReportedError(codec, lines[1..])
  }

  function Bodies(codec: Codec, events: seq<Event>): seq<string> {
    if events == [] then [] else [codec.encode(events[0])] + Bodies(codec, events[1..])
  }

  lemma {:induction false} BodiesConcat(codec: Codec, a: seq<Event>, b: seq<Event>)
    ensures Bodies(codec, a + b) == Bodies(codec, a) + Bodies(codec, b)
    decreases |a|
  {
    if a == [] {
      assert a + b == b;
    } else {
      assert (a + b)[1..] == a[1..] + b;
      BodiesConcat(codec, a[1..], b);
    }
  }

  function Block(codec: Codec, e: Event): string {
    "event: " + EventName(e) + "\n" + ("data: " + codec.encode(e))
  }

  lemma FrameIsBlock(codec: Codec, e: Event, rest: string)
    ensures Frame(codec, e) + rest == Block(codec, e) + "\n\n" + rest
  {
    hide EventName;
    assert "\ndata: " == "\n" + "data: ";
  }

  /** A rendered event is one block whose only data is its encoding. */
  lemma FrameParses(codec: Codec, e: Event, rest: string)
    requires codec.Sound()
    ensures Parse(Frame(codec, e) + rest).0 == [codec.encode(e)] + Parse(rest).0 && Parse(Frame(codec, e) + rest).1 == Parse(rest).1
  {
    hide BoundaryAt, FirstBoundary, Payload, Frame, EventName, Parse, Shown;
    var head, body, block := "event: " + EventName(e), codec.encode(e), Block(codec, e);
    var text := block + "\n\n" + rest;
    FrameIsBlock(codec, e, rest);
    NameIsPlain(e);
    assert '\n' !in body && '\r' !in body;
    BlockEnds(head, body, rest);
    BlockHasBody(head, body);
    ParseStep(text);
    assert text[..|block|] == block && text[|block| + 2..] == rest;
  }

  lemma NameIsPlain(e: Event)
    ensures '\n' !in "event: " + EventName(e) && '\r' !in "event: " + EventName(e)
  {
    assert '\n' !in EventName(e) && '\r' !in EventName(e);
  }

  lemma BlockEnds(head: string, body: string, rest: string)
    requires '\n' !in head && '\r' !in head && '\n' !in body && '\r' !in body
    ensures var block := head + "\n" + ("data: " + body);
            FirstBoundary(block + "\n\n" + rest, 0) == Some(|block|) && BoundaryAt(block + "\n\n" + rest, |block|) == 2
  {
    var block := head + "\n" + ("data: " + body);
    var text := block + "\n\n" + rest;
    assert text[|head|] == '\n' && text[|head| + 1] == 'd' && text[|block|] == '\n' && text[|block| + 1] == '\n';
    forall j | 0 <= j < |block| ensures BoundaryAt(text, j) == 0 {
      assert text[j] == block[j];
      if j < |head| {
        assert text[j] == head[j];
      } else if j > |head| + 6 {
        assert text[j] == body[j - |head| - 7];
      }
    }
    FirstBoundaryIs(text, |block|);
  }

  lemma BlockHasBody(head: string, body: string)
    requires '\n' !in head && '\r' !in head && '\n' !in body && HasPrefix(head, "event: ")
    ensures Payload(head + "\n" + ("data: " + body)) == [body]
  {
    var second, none := "data: " + body, [];
    assert head + "\n" + second == head + ['\n'] + second;
    CutAt(head, '\n', second);
    NotIn(body);
    assert DropCR(head) == head;
    assert BlockLines(head + "\n" + second) == [head] + [second] == [head, second];
    assert DataOf(head) == None by {
      assert head[0] == 'e';
    }
    assert second[5..] == " " + body && (" " + body)[1..] == body;
    assert DataOf(second) == Some(body);
    hide DataOf, BlockLines;
    assert [second][1..] == none && DataValues(none) == none;
    assert DataValues([second]) == [body] + none == [body];
    assert [head, second][1..] == [second];
    assert DataValues([head, second]) == [body];
  }

  lemma NotIn(body: string)
    requires '\n' !in body
    ensures Cut("data: " + body, '\n') == None
  {
    assert '\n' !in "data: " + body;
    CutNone("data: " + body);
  }

  lemma {:induction false} RenderedParses(codec: Codec, events: seq<Event>)
    requires codec.Sound()
    ensures Parse(Render(codec, events)) == (Bodies(codec, events), "")
    decreases |events|
  {
    hide Parse, Frame;
    if events == [] {
      ParseStep("");
    } else {
      RenderedParses(codec, events[1..]);
      FrameParses(codec, events[0], Render(codec, events[1..]));
    }
  }

  /** The browser's reading of one emitted event. */
  lemma EventMeans(codec: Codec, e: Event)
    requires codec.Sound() && (e.ErrorEvent? ==> e.message != "")
    ensures ProviderTextDelta(codec, codec.encode(e)) ==
            match e
            case ErrorEvent(message) => Throws(message)
            case TextDelta(text) => Delta(false, text)
            case MessageStop => Delta(true, "")
            case _ => Delta(false, "")
  {
    assert codec.view(codec.encode(e)) == Shown(e) && HasPrefix(codec.encode(e), "{");
    assert codec.encode(e) != "[DONE]" by {
      assert codec.encode(e)[0] == '{';
    }
  }

  function Meaning(codec: Codec): string -> Delta {
    payload => ProviderTextDelta(codec, payload)
  }

  function Heard(codec: Codec, events: seq<Event>): Reading {
    Consume(Meaning(codec), NOTHING_READ, Bodies(codec, events))
  }

  lemma HeardMore(codec: Codec, events: seq<Event>, e: Event)
    requires codec.Sound() && !Over(Heard(codec, events)) && (e.ErrorEvent? ==> e.message != "")
    ensures Heard(codec, events + [e]) ==
            var r := Heard(codec, events);
            match e
            case ErrorEvent(message) => r.(thrown := Some(message))
            case TextDelta(text) => r.(text := r.text + text)
            case MessageStop => r.(terminal := true)
            case _ => r
  {
    BodiesConcat(codec, events, [e]);
    assert Bodies(codec, [e]) == [codec.encode(e)] by {
      var none: seq<Event> := [];
      assert [e][1..] == none;
    }
    EventMeans(codec, e);
    ConsumeConcat(Meaning(codec), NOTHING_READ, Bodies(codec, events), [codec.encode(e)]);
    hide Bodies, ProviderTextDelta;
    var r := Heard(codec, events);
    assert r.text + "" == r.text;
    var none: seq<string> := [];
    assert [codec.encode(e)][1..] == none;
  }

  /** While lines are translated, the browser has heard exactly what has been spoken. */
  lemma {:induction false} LinesMean(codec: Codec, s: State, lines: seq<string>)
    requires codec.Sound() && !s.failed && !Over(Heard(codec, s.events))
    ensures var t := StepLines(codec, s, lines);
      && t.failed == ReportedError(codec, lines).Some?
      && Heard(codec, t.events) ==
           Reading(Heard(codec, s.events).text + Spoken(codec, lines), false, ReportedError(codec, lines))
    decreases |lines|
  {
    hide ChunkOf, Heard, Count, StopReason, Codec.Sound;
    var r := Heard(codec, s.events);
    if lines == [] {
      assert r.text + "" == r.text;
    } else {
      var t := StepLine(codec, s, lines[0]);
      match ChunkOf(codec, lines[0]) {
        case None => LinesMean(codec, s, lines[1..]);
        case Some(c) =>
          if c.error.Some? {
            HeardMore(codec, s.events, ErrorEvent(OrDefault(c.error.value, DEFAULT_ERROR)));
            assert r.text + "" == r.text;
          } else {
            if c.choices != [] && c.choices[0].content != "" {
              HeardMore(codec, s.events, TextDelta(c.choices[0].content));
            } else {
              assert t.events == s.events && "" + Spoken(codec, lines[1..]) == Spoken(codec, lines[1..]);
            }
            LinesMean(codec, t, lines[1..]);
          }
      }
    }
  }

  lemma ClosingMeans(codec: Codec, s: State)
    requires codec.Sound() && !Over(Heard(codec, s.events))
    ensures Heard(codec, s.events + Closing(s)) == Heard(codec, s.events).(terminal := true)
  {
    hide Heard;
    var closing := Closing(s);
    HeardMore(codec, s.events, closing[0]);
    HeardMore(codec, s.events + [closing[0]], closing[1]);
    HeardMore(codec, s.events + [closing[0]] + [closing[1]], closing[2]);
    assert s.events + closing == s.events + [closing[0]] + [closing[1]] + [closing[2]];
  }

  lemma StartMeans(codec: Codec)
    requires codec.Sound()
    ensures Heard(codec, START.events) == NOTHING_READ
  {
    var none: seq<Event> := [];
    HeardMore(codec, none, MessageStart);
    HeardMore(codec, none + [MessageStart], BlockStart);
    assert none + [MessageStart] + [BlockStart] == START.events;
  }

  /**
   * The stream keeps its meaning. However the translated text is divided on its way, the browser ends up with exactly what
   * the provider said before its first error chunk; it throws that error if there is one, and otherwise it takes the answer
   * for complete exactly when reading the provider did not break off, which is when the translator closed the message.
   */
  lemma StreamMeaning(codec: Codec, lines: seq<string>, broken: bool, pieces: seq<string>)
    requires codec.Sound() && Whole(pieces) == Render(codec, Translate(codec, lines, broken))
    ensures var error := ReportedError(codec, lines);
      && ReadText(Meaning(codec), Whole(pieces), broken && error.None?) ==
           (Spoken(codec, lines), if error.Some? then ProviderError(error.value) else if broken then Broken else Complete)
      && (MessageStop in Translate(codec, lines, broken) <==> error.None? && !broken)
  {
    hide StepLines, Spoken, ReportedError, Parse, Render, ProviderTextDelta, Bodies, Consume, Closing;
    var s := StepLines(codec, START, lines);
    StartMeans(codec);
    LinesMean(codec, START, lines);
    RenderedParses(codec, Translate(codec, lines, broken));
    if !s.failed && !broken {
      ClosingMeans(codec, s);
      LastCloses(s);
    }
    NoEarlyStop(codec, START, lines);
    assert "" + Spoken(codec, lines) == Spoken(codec, lines);
  }

  lemma LastCloses(s: State)
    ensures MessageStop in s.events + Closing(s)
  {
    assert (s.events + Closing(s))[|s.events| + 2] == MessageStop;
  }

  lemma {:induction false} NoEarlyStop(codec: Codec, s: State, lines: seq<string>)
    requires MessageStop !in s.events
    ensures MessageStop !in StepLines(codec, s, lines).events
    decreases |lines|
  {
    hide ChunkOf;
    if lines != [] && !s.failed {
      NoEarlyStop(codec, StepLine(codec, s, lines[0]), lines[1..]);
    }
  }

  /** The last finish reason the provider gave, before any error. */
  function LastFinish(codec: Codec, lines: seq<string>): Option<string> {
    if lines == [] then None
    else
      match ChunkOf(codec, lines[0])
      case None => LastFinish(codec, lines[1..])
      case Some(c) =>
        if c.error.Some? then None
        else
          match LastFinish(codec, lines[1..])
          case Some(f) => Some(f)
          case None => if c.choices != [] && c.choices[0].finish != "" then Some(c.choices[0].finish) else None
  }

  function Deltas(events: seq<Event>): nat {
    if events == [] then 0 else Deltas(events[..|events| - 1]) + (if events[|events| - 1].TextDelta? then 1 else 0)
  }

  /** A closed message reports the provider's last finish reason, and counts its own deltas when the provider counts nothing. */
  lemma {:induction false} ClosingReports(codec: Codec, s: State, lines: seq<string>)
    requires s.produced == Deltas(s.events)
    ensures var t := StepLines(codec, s, lines);
      !t.failed ==> t.produced == Deltas(t.events) &&
                    (s.failed || t.stop == match LastFinish(codec, lines) case None => s.stop case Some(f) => StopReason(f))
    decreases |lines|
  {
    hide ChunkOf, StopReason;
    if lines != [] && !s.failed {
      var t := StepLine(codec, s, lines[0]);
      assert !t.failed ==> t.produced == Deltas(t.events) by {
        if t.events != s.events {
          assert t.events[..|t.events| - 1] == s.events;
        }
      }
      if !t.failed {
        ClosingReports(codec, t, lines[1..]);
      }
    }
  }
}
