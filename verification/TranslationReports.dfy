/** The translated stream event by event, its closing report in the words of the Messages vocabulary, and reading without translation. */
module TranslationReports {
  import opened Prelude
  import opened Text
  import opened EventStreams
  import opened Translation

  // ---- which lines say something

  /** A data line carries the chunk of its payload, whatever white space surrounds it; an empty payload and the end mark carry none. */
  lemma DataLineCarries(codec: Codec, before: string, gap: string, payload: string, after: string)
    requires AllSpace(before) && AllSpace(gap) && AllSpace(after) && (payload == "" || Tidy(payload))
    ensures ChunkOf(codec, before + "data:" + gap + payload + after) ==
            if payload == "" || payload == "[DONE]" then None else codec.decode(payload)
  {
    var line := before + "data:" + gap + payload + after;
    if payload == "" {
      assert AllSpace(gap + after);
      assert line == before + "data:" + (gap + after);
      TrimAround(before, "data:", gap + after);
      assert "data:"[5..] == "";
    } else {
      var t := "data:" + gap + payload;
      assert t[|t| - 1] == payload[|payload| - 1] && Tidy(t);
      assert line == before + t + after;
      TrimAround(before, t, after);
      assert t[5..] == gap + payload + "";
      TrimAround(gap, payload, "");
    }
  }

  /** A line that begins with anything else carries nothing. */
  lemma OtherLineCarriesNothing(codec: Codec, before: string, rest: string)
    requires AllSpace(before) && (rest == "" || !IsSpace(rest[0])) && !HasPrefix(rest, "data:")
    ensures ChunkOf(codec, before + rest) == None
  {
    TrimLeftSpace(before, rest);
    TrimRightShape(rest);
  }

  // ---- what a stream says, chunk by chunk

  /** The chunks a stream carries before the first that reports an error. */
  function Chunks(codec: Codec, lines: seq<string>): seq<Chunk> {
    if lines == [] then []
    else
      match ChunkOf(codec, lines[0])
      case None => Chunks(codec, lines[1..])
      case Some(c) => if c.error.Some? then [] else [c] + Chunks(codec, lines[1..])
  }

  function Content(c: Chunk): string {
    if c.choices == [] then "" else c.choices[0].content
  }

  function Finish(c: Chunk): string {
    if c.choices == [] then "" else c.choices[0].finish
  }

  function OnlySaid(s: string): seq<string> {
    if s == "" then [] else [s]
  }

  /** The texts that are not empty, in order. */
  function Contents(chunks: seq<Chunk>): seq<string> {
    if chunks == [] then [] else OnlySaid(Content(chunks[0])) + Contents(chunks[1..])
  }

  /** The finish reasons that are given, in order. */
  function Finishes(chunks: seq<Chunk>): seq<string> {
    if chunks == [] then [] else OnlySaid(Finish(chunks[0])) + Finishes(chunks[1..])
  }

  function Positive(n: int): seq<int> {
    if n > 0 then [n] else []
  }

  /** The positive counts a chunk reports: its own first, then Groq's. */
  function CompletionCounts(c: Chunk): seq<int> {
    (if c.usage.Some? then Positive(c.usage.value.completion) else []) + (if c.groq.Some? then Positive(c.groq.value.completion) else [])
  }

  function PromptCounts(c: Chunk): seq<int> {
    (if c.usage.Some? then Positive(c.usage.value.prompt) else []) + (if c.groq.Some? then Positive(c.groq.value.prompt) else [])
  }

  function Completions(chunks: seq<Chunk>): seq<int> {
    if chunks == [] then [] else CompletionCounts(chunks[0]) + Completions(chunks[1..])
  }

  function Prompts(chunks: seq<Chunk>): seq<int> {
    if chunks == [] then [] else PromptCounts(chunks[0]) + Prompts(chunks[1..])
  }

  function Deltas(texts: seq<string>): seq<Event> {
    if texts == [] then [] else [TextDelta(texts[0])] + Deltas(texts[1..])
  }

  function LastOr<T>(s: seq<T>, otherwise: T): T {
    if s == [] then otherwise else s[|s| - 1]
  }

  lemma LastOfBoth<T>(a: seq<T>, b: seq<T>, otherwise: T)
    ensures LastOr(a + b, otherwise) == LastOr(b, LastOr(a, otherwise))
  {
  }

  function FailureOf(codec: Codec, lines: seq<string>): seq<Event> {
    match ReportedError(codec, lines) case None => [] case Some(message) => [ErrorEvent(message)]
  }

  lemma CountsAre(s: State, c: Chunk)
    ensures var t := Count(Count(s, c.usage), c.groq);
            t == s.(reported := LastOr(CompletionCounts(c), s.reported), prompt := LastOr(PromptCounts(c), s.prompt))
  {
  }

  /** What the lines add to a translation under way. */
  lemma {:induction false} LinesAdd(codec: Codec, s: State, lines: seq<string>)
    requires !s.failed
    ensures var t, chunks := StepLines(codec, s, lines), Chunks(codec, lines);
      && t.events == s.events + Deltas(Contents(chunks)) + FailureOf(codec, lines)
      && t.failed == ReportedError(codec, lines).Some?
      && t.produced == s.produced + |Contents(chunks)|
      && t.reported == LastOr(Completions(chunks), s.reported) && t.prompt == LastOr(Prompts(chunks), s.prompt)
      && t.stop == if Finishes(chunks) == [] then s.stop else StopReason(LastOr(Finishes(chunks), ""))
    decreases |lines|
  {
    hide ChunkOf, StopReason, Count, CompletionCounts, PromptCounts;
    if lines == [] {
      assert s.events + [] + [] == s.events;
    } else {
      match ChunkOf(codec, lines[0]) {
        case None => LinesAdd(codec, s, lines[1..]);
        case Some(c) =>
          if c.error.Some? {
            assert Chunks(codec, lines) == [];
            assert s.events + [] == s.events;
          } else {
            var t, rest := StepLine(codec, s, lines[0]), Chunks(codec, lines[1..]);
            ChunkAdds(codec, s, lines[0], c);
            LinesAdd(codec, t, lines[1..]);
            assert Chunks(codec, lines) == [c] + rest && ([c] + rest)[1..] == rest;
            LastOfBoth(CompletionCounts(c), Completions(rest), s.reported);
            LastOfBoth(PromptCounts(c), Prompts(rest), s.prompt);
            LastOfBoth(OnlySaid(Finish(c)), Finishes(rest), "");
            DeltasOfBoth(OnlySaid(Content(c)), Contents(rest));
            EventsAdd(s.events, Deltas(OnlySaid(Content(c))), Deltas(Contents(rest)), FailureOf(codec, lines[1..]));
          }
      }
    }
  }

  lemma ChunkAdds(codec: Codec, s: State, line: string, c: Chunk)
    requires ChunkOf(codec, line) == Some(c) && c.error.None?
    ensures var t := StepLine(codec, s, line);
      && t.events == s.events + Deltas(OnlySaid(Content(c))) && t.produced == s.produced + |OnlySaid(Content(c))| && t.failed == s.failed
      && t.reported == LastOr(CompletionCounts(c), s.reported) && t.prompt == LastOr(PromptCounts(c), s.prompt)
      && t.stop == if Finish(c) == "" then s.stop else StopReason(Finish(c))
  {
    CountsAre(s, c);
    hide ChunkOf, StopReason, Count, CompletionCounts, PromptCounts;
    assert s.events + [] == s.events;
    var none: seq<string> := [];
    assert [Content(c)][1..] == none && Deltas(none) == [];
    assert Deltas([Content(c)]) == [TextDelta(Content(c))] + [] == [TextDelta(Content(c))];
  }

  lemma EventsAdd(a: seq<Event>, b: seq<Event>, c: seq<Event>, d: seq<Event>)
    ensures a + b + c + d == a + (b + c) + d
  {
  }

  lemma {:induction false} DeltasOfBoth(a: seq<string>, b: seq<string>)
    ensures Deltas(a + b) == Deltas(a) + Deltas(b)
    decreases |a|
  {
    if a == [] {
      assert a + b == b;
    } else {
      assert (a + b)[1..] == a[1..] + b;
      DeltasOfBoth(a[1..], b);
    }
  }

  // ---- the whole stream

  /** What the closing event reports, in the words of the Messages vocabulary. */
  ghost predicate Reports(chunks: seq<Chunk>, stop: string, outputTokens: int, inputTokens: Option<int>) {
    var last := LastOr(Finishes(chunks), "");
    && (last == "" || last == "stop" ==> stop == "end_turn")
    && (last == "length" ==> stop == "max_tokens")
    && (last == "content_filter" ==> stop == "refusal")
    && (last == "tool_calls" || last == "function_call" ==> stop == "tool_use")
    && (last != "" && last != "stop" && last != "length" && last != "content_filter" && last != "tool_calls" && last != "function_call" ==>
          stop == last)
    && outputTokens == (if Completions(chunks) == [] then |Contents(chunks)| else Completions(chunks)[|Completions(chunks)| - 1])
    && inputTokens == (if Prompts(chunks) == [] then None else Some(Prompts(chunks)[|Prompts(chunks)| - 1]))
  }

  /**
   * The translation event by event: an opening, one delta for each text that is not empty, and then the first reported error,
   * or nothing when reading broke off, or a close. The close gives the last finish reason in the words of the Messages
   * vocabulary, the last positive count of output tokens or the number of deltas, and the last positive count of input tokens.
   */
  lemma TranslationIs(codec: Codec, lines: seq<string>, broken: bool)
    ensures var (events, chunks) := (Translate(codec, lines, broken), Chunks(codec, lines));
      var spoken := [MessageStart, BlockStart] + Deltas(Contents(chunks));
      match ReportedError(codec, lines)
      case Some(message) => events == spoken + [ErrorEvent(message)]
      case None =>
        if broken then events == spoken
        else
          exists stop, outputTokens, inputTokens ::
            Reports(chunks, stop, outputTokens, inputTokens) &&
            events == spoken + [BlockStop, MessageDelta(stop, outputTokens, inputTokens), MessageStop]
  {
    hide StepLines, Completions, Prompts, Finishes, Contents, Chunks, StopReason, Reports, Deltas, Closing, ReportedError;
    var s, chunks := StepLines(codec, START, lines), Chunks(codec, lines);
    LinesAdd(codec, START, lines);
    assert s.events + [] == s.events;
    if ReportedError(codec, lines).None? && !broken {
      ClosingIs(s, chunks);
    }
  }

  lemma ClosingIs(s: State, chunks: seq<Chunk>)
    requires s.produced == |Contents(chunks)| && s.reported == LastOr(Completions(chunks), 0) && s.prompt == LastOr(Prompts(chunks), 0)
    requires s.stop == if Finishes(chunks) == [] then "end_turn" else StopReason(LastOr(Finishes(chunks), ""))
    ensures exists stop, outputTokens, inputTokens ::
      Reports(chunks, stop, outputTokens, inputTokens) && Closing(s) == [BlockStop, MessageDelta(stop, outputTokens, inputTokens), MessageStop]
  {
    PositiveCounts(chunks);
    FinishesSay(chunks);
    ReasonsAre(LastOr(Finishes(chunks), ""));
    hide Completions, Prompts, Finishes, Contents, StopReason;
    assert Completions(chunks) != [] ==> LastOr(Completions(chunks), 0) in Completions(chunks);
    assert Prompts(chunks) != [] ==> LastOr(Prompts(chunks), 0) in Prompts(chunks);
    assert Finishes(chunks) != [] ==> LastOr(Finishes(chunks), "") in Finishes(chunks);
    var outputTokens := if s.reported > 0 then s.reported else s.produced;
    var inputTokens := if s.prompt > 0 then Some(s.prompt) else None;
    assert Reports(chunks, s.stop, outputTokens, inputTokens);
    hide Reports;
    assert Closing(s) == [BlockStop, MessageDelta(s.stop, outputTokens, inputTokens), MessageStop];
  }

  lemma ReasonsAre(f: string)
    ensures f == "stop" || f == "" ==> StopReason(f) == "end_turn"
    ensures f == "length" ==> StopReason(f) == "max_tokens"
    ensures f == "content_filter" ==> StopReason(f) == "refusal"
    ensures f == "tool_calls" || f == "function_call" ==> StopReason(f) == "tool_use"
    ensures f != "stop" && f != "" && f != "length" && f != "content_filter" && f != "tool_calls" && f != "function_call" ==> StopReason(f) == f
  {
  }

  lemma {:induction false} FinishesSay(chunks: seq<Chunk>)
    ensures forall f :: f in Finishes(chunks) ==> f != ""
    decreases |chunks|
  {
    if chunks != [] {
      FinishesSay(chunks[1..]);
    }
  }

  lemma {:induction false} PositiveCounts(chunks: seq<Chunk>)
    ensures forall n :: n in Completions(chunks) || n in Prompts(chunks) ==> n > 0
    decreases |chunks|
  {
    if chunks != [] {
      PositiveCounts(chunks[1..]);
    }
  }

  /** The chunk on this line reports an error with this message. */
  predicate ErrorAt(codec: Codec, line: string, message: string) {
    ChunkOf(codec, line).Some? && ChunkOf(codec, line).value.error == Some(message)
  }

  predicate NoErrorAt(codec: Codec, line: string) {
    ChunkOf(codec, line).None? || ChunkOf(codec, line).value.error.None?
  }

  /** The error that ends a translation is the first one reported, in its own words when it has any. */
  lemma {:induction false} FirstErrorIs(codec: Codec, lines: seq<string>, i: nat, message: string)
    requires i < |lines| && ErrorAt(codec, lines[i], message) && forall j :: 0 <= j < i ==> NoErrorAt(codec, lines[j])
    ensures ReportedError(codec, lines) ==
            Some(if message == "" then "the provider reported an error partway through the response" else message)
  {
    hide ChunkOf;
    if i > 0 {
      assert NoErrorAt(codec, lines[0]);
      FirstErrorIs(codec, lines[1..], i - 1, message);
    }
  }

  lemma {:induction false} NoErrorNone(codec: Codec, lines: seq<string>)
    requires forall j :: 0 <= j < |lines| ==> NoErrorAt(codec, lines[j])
    ensures ReportedError(codec, lines).None?
  {
    hide ChunkOf;
    if lines != [] {
      assert NoErrorAt(codec, lines[0]);
      NoErrorNone(codec, lines[1..]);
    }
  }

  // ---- reading the provider's own stream

  function OrEmpty(s: Option<string>): string {
    if s.Some? then s.value else ""
  }

  /** Browser and translator see the same chunk in a payload, which is not the end mark. */
  ghost predicate SeenAlike(codec: Codec, payload: string, c: Chunk) {
    && payload != "" && Tidy(payload) && payload != "[DONE]" && codec.decode(payload) == Some(c)
    && codec.view(payload).Value? && codec.view(payload).error == c.error
    && |codec.view(payload).choices| == |c.choices|
    && (c.choices != [] ==>
          OrEmpty(codec.view(payload).choices[0].finish) == c.choices[0].finish &&
          OrEmpty(codec.view(payload).choices[0].content) == c.choices[0].content)
    && codec.view(payload).eventType == "" && codec.view(payload).deltaType == "" && codec.view(payload).deltaText == None
  }

  function DataLines(payloads: seq<string>): seq<string> {
    if payloads == [] then [] else ["data: " + payloads[0]] + DataLines(payloads[1..])
  }

  /** After a finish reason nothing more is said. */
  predicate FinishIsLast(chunks: seq<Chunk>)
    decreases |chunks|
  {
    chunks == [] ||
    ((Finish(chunks[0]) != "" ==> forall c :: c in chunks[1..] ==> c.error.None? && Content(c) == "") && FinishIsLast(chunks[1..]))
  }

  lemma PayloadMeans(codec: Codec, payload: string, c: Chunk)
    requires SeenAlike(codec, payload, c)
    ensures ChunkOf(codec, "data: " + payload) == Some(c)
    ensures c.error.None? ==> ProviderTextDelta(codec, payload) == Delta(Finish(c) != "", Content(c))
    ensures c.error.Some? ==>
              ProviderTextDelta(codec, payload) == Throws(if c.error.value == "" then "the provider returned an error" else c.error.value)
  {
    assert "" + "data:" + " " + payload + "" == "data: " + payload;
    DataLineCarries(codec, "", " ", payload, "");
  }

  /** Lines that say nothing. */
  lemma {:induction false} NothingSpoken(codec: Codec, payloads: seq<string>, chunks: seq<Chunk>)
    requires |payloads| == |chunks| && forall i :: 0 <= i < |chunks| ==> SeenAlike(codec, payloads[i], chunks[i])
    requires forall c :: c in chunks ==> c.error.None? && Content(c) == ""
    ensures Spoken(codec, DataLines(payloads)) == "" && ReportedError(codec, DataLines(payloads)) == None
    decreases |chunks|
  {
    hide ChunkOf, SeenAlike;
    if chunks != [] {
      PayloadMeans(codec, payloads[0], chunks[0]);
      var rest := DataLines(payloads[1..]);
      assert DataLines(payloads)[1..] == rest && chunks[0] in chunks;
      NothingSpoken(codec, payloads[1..], chunks[1..]);
    }
  }

  /**
   * Translation makes no difference to what is read. A browser that reads the provider's own stream, ended by its end mark,
   * takes in the text that its translation would give it, throws when that one would, and takes the answer for complete when
   * that one would, as long as the provider falls silent after giving a finish reason.
   */
  lemma {:induction false} ReadsTheSameUntranslated(codec: Codec, payloads: seq<string>, chunks: seq<Chunk>, r: Reading)
    requires |payloads| == |chunks| && forall i :: 0 <= i < |chunks| ==> SeenAlike(codec, payloads[i], chunks[i])
    requires FinishIsLast(chunks) && !Over(r)
    ensures var lines, after := DataLines(payloads), Consume(Meaning(codec), r, payloads + ["[DONE]"]);
      && after.text == r.text + Spoken(codec, lines)
      && (after.thrown.Some? <==> ReportedError(codec, lines).Some?)
      && (after.terminal <==> ReportedError(codec, lines).None?)
    decreases |chunks|
  {
    hide ChunkOf, SeenAlike, ProviderTextDelta;
    var all, none := payloads + ["[DONE]"], [];
    if chunks == [] {
      assert all == ["[DONE]"] && all[1..] == none;
      EndMarkEnds(codec);
      assert r.text + "" == r.text;
    } else {
      var c, lines, rest := chunks[0], DataLines(payloads), payloads[1..];
      PayloadMeans(codec, payloads[0], c);
      assert all[0] == payloads[0] && all[1..] == rest + ["[DONE]"] && lines[1..] == DataLines(rest);
      assert r.text + "" == r.text;
      if c.error.None? {
        var next := Reading(r.text + Content(c), Finish(c) != "", None);
        assert Consume(Meaning(codec), r, all) == Consume(Meaning(codec), next, rest + ["[DONE]"]);
        if Finish(c) != "" {
          NothingSpoken(codec, rest, chunks[1..]);
        } else {
          ReadsTheSameUntranslated(codec, rest, chunks[1..], next);
        }
      }
    }
  }

  lemma EndMarkEnds(codec: Codec)
    ensures ProviderTextDelta(codec, "[DONE]") == Delta(true, "")
  {
  }

  // ---- an answer that is cut off

  lemma {:induction false} NotOverYet(codec: Codec, events: seq<Event>)
    requires codec.Sound() && MessageStop !in events && forall e :: e in events ==> !e.ErrorEvent?
    ensures !Over(Heard(codec, events))
  {
    hide Codec.Sound, Heard;
    if events == [] {
      NothingHeard(codec);
    } else {
      var init, last := events[..|events| - 1], events[|events| - 1];
      assert events == init + [last] && last in events && forall e :: e in init ==> e in events;
      NotOverYet(codec, init);
      HeardMore(codec, init, last);
    }
  }

  lemma NothingHeard(codec: Codec)
    ensures Heard(codec, []) == NOTHING_READ
  {
  }

  /** A translated stream that ends before its closing event is never taken for complete, whether it ends cleanly or breaks off. */
  lemma CutOffIsNotComplete(codec: Codec, events: seq<Event>, breaks: bool)
    requires codec.Sound() && MessageStop !in events && forall e :: e in events ==> !e.ErrorEvent?
    ensures ReadText(Meaning(codec), Render(codec, events), breaks).1 == if breaks then Broken else Unconfirmed
  {
    hide Parse, Render, Consume, Bodies, Codec.Sound;
    RenderedParses(codec, events);
    NotOverYet(codec, events);
  }
}
