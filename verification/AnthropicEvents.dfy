/**
 What the Anthropic relay (`src/provider/anthropic_stream.rs`) reads on a line and in a JSON event, and
 what every single chunk that it sends carries.
 */
module AnthropicEvents {
  import opened Wrappers
  import opened Lines
  import opened Sequences
  import opened AnthropicRelay
  import opened AnthropicTheorems
  import SF = StreamFields
  import SN = StreamNormalize

  // ---- Events ----------------------------------------------------------------------------

  type Fields = map<string, SN.Json>

  function StrOrNull(s: Option<string>): SN.Json { if s.Some? then SN.Str(s.value) else SN.Null }

  /** An event as Anthropic writes it. All it may hold besides: `top`, and `inner` in its sub-object. */
  function Written(e: Event, decimal: nat -> string, top: Fields, inner: Fields): SN.Json {
    match e
    case MessageStart(id, name) =>
      SN.Obj(top["type" := SN.Str("message_start")]
               ["message" := SN.Obj(inner["id" := StrOrNull(id)]["model" := StrOrNull(name)])])
    case BlockDelta(thinking, text, at) =>
      SN.Obj(top["type" := SN.Str("content_block_delta")]["index" := SN.Number(decimal(at))]
               ["delta" := SN.Obj(if thinking then inner["type" := SN.Str("thinking_delta")]["thinking" := SN.Str(text)]
                                  else inner["type" := SN.Str("text_delta")]["text" := SN.Str(text)])])
    case MessageDelta(reason, output) =>
      SN.Obj(top["type" := SN.Str("message_delta")]
               ["delta" := SN.Obj(inner["stop_reason" := StrOrNull(reason)])]
               ["usage" := SN.Obj(if output.None? then map[]
                                  else map["output_tokens" := SN.Number(decimal(output.value))])])
    case MessageStop => SN.Obj(top["type" := SN.Str("message_stop")])
    case Ignored => SN.Obj(top["type" := SN.Str("ping")])
  }

  lemma StartRead(d: Decoder, decimal: nat -> string, e: Event, top: Fields, inner: Fields)
    requires e.MessageStart?
    ensures EventOf(d, Written(e, decimal, top, inner)) == e
  {
  }

  lemma BlockRead(d: Decoder, decimal: nat -> string, e: Event, top: Fields, inner: Fields)
    requires e.BlockDelta? && d.u64(decimal(e.at)) == Some(e.at)
    ensures EventOf(d, Written(e, decimal, top, inner)) == e
  {
  }

  lemma DeltaRead(d: Decoder, decimal: nat -> string, e: Event, top: Fields, inner: Fields)
    requires e.MessageDelta? && (e.output.Some? ==> d.u64(decimal(e.output.value)) == e.output)
    ensures EventOf(d, Written(e, decimal, top, inner)) == e
  {
  }

  /** Every event is read back from what is written for it, whatever other fields are there. */
  lemma EventRoundTrip(d: Decoder, decimal: nat -> string, e: Event, top: Fields, inner: Fields)
    requires e.BlockDelta? ==> d.u64(decimal(e.at)) == Some(e.at)
    requires e.MessageDelta? && e.output.Some? ==> d.u64(decimal(e.output.value)) == e.output
    ensures EventOf(d, Written(e, decimal, top, inner)) == e
  {
    match e
    case MessageStart(_, _) =>
      hide EventOf, Written;
      StartRead(d, decimal, e, top, inner);
    case BlockDelta(_, _, _) =>
      hide EventOf, Written;
      BlockRead(d, decimal, e, top, inner);
    case MessageDelta(_, _) =>
      hide EventOf, Written;
      DeltaRead(d, decimal, e, top, inner);
    case _ =>
  }

  /** Fields that are missing: no id, no text, block 0, no reason; and only these four types say anything. */
  lemma MissingFields(d: Decoder, kind: string)
    ensures EventOf(d, SN.Obj(map["type" := SN.Str(kind)])) ==
            match kind
            case "message_start" => MessageStart(None, None)
            case "content_block_delta" => BlockDelta(false, "", 0)
            case "message_delta" => MessageDelta(None, None)
            case "message_stop" => MessageStop
            case _ => Ignored
  {
  }

  // ---- Lines -----------------------------------------------------------------------------

  lemma {:induction false} TrimTail(s: string, gap: string)
    requires SF.Spaces(gap) && s != "" && !SN.IsSpace(s[|s| - 1])
    ensures TrimEnd(s + gap) == s
  {
    if gap == "" {
      AppendEmpty(s);
    } else {
      var n := |gap| - 1;
      assert (s + gap)[..|s + gap| - 1] == s + gap[..n] && (s + gap)[|s + gap| - 1] == gap[n];
      TrimTail(s, gap[..n]);
    }
  }

  /** `line` reads `data: ` and then `s`, with white space around. */
  ghost predicate Carries(d: Decoder, line: seq<byte>, before: string, s: string, after: string) {
    && d.decode(line) == Some(before + ("data: " + s + after))
    && SF.Spaces(before) && SF.Spaces(after) && s != "" && !SN.IsSpace(s[|s| - 1])
  }

  /** Of such a line the JSON value is taken, if it is one. */
  lemma DataRead(d: Decoder, line: seq<byte>, before: string, s: string, after: string)
    requires Carries(d, line, before, s, after)
    ensures ReadLine(d, line) == if d.parse(s).Some? then Some(EventOf(d, d.parse(s).value)) else None
  {
    hide EventOf, TrimEnd, SN.TrimStart;
    var text := "data: " + s;
    SF.TrimGap(before, text + after);
    TrimTail(text, after);
    assert text[6..] == s;
  }

  lemma {:induction false} StartIs(s: string) returns (gap: string)
    ensures SF.Spaces(gap) && s == gap + SN.TrimStart(s)
  {
    if s != "" && SN.IsSpace(s[0]) {
      var more := StartIs(s[1..]);
      gap := [s[0]] + more;
      assert s == [s[0]] + s[1..];
    } else {
      gap := "";
    }
  }

  lemma {:induction false} EndIs(s: string) returns (gap: string)
    ensures SF.Spaces(gap) && s == TrimEnd(s) + gap
    ensures TrimEnd(s) != "" ==> !SN.IsSpace(TrimEnd(s)[|TrimEnd(s)| - 1])
  {
    if s != "" && SN.IsSpace(s[|s| - 1]) {
      var more := EndIs(s[..|s| - 1]);
      gap := more + [s[|s| - 1]];
      assert s == s[..|s| - 1] + [s[|s| - 1]];
    } else {
      gap := "";
    }
  }

  /** No other line tells the relay anything. */
  lemma OnlyDataRead(d: Decoder, line: seq<byte>) returns (before: string, s: string, after: string)
    ensures ReadLine(d, line).Some? ==> Carries(d, line, before, s, after)
  {
    hide EventOf, TrimEnd, SN.TrimStart, SF.Spaces;
    var text := OrElse(d.decode(line), "");
    before := StartIs(text);
    var rest := SN.TrimStart(text);
    after := EndIs(rest);
    var core := TrimEnd(rest);
    s := if |core| >= 6 then core[6..] else "";
    if "data: " <= core && s != "" {
      assert core == "data: " + s;
    }
  }

  // ---- Chunks ----------------------------------------------------------------------------

  /** The last value that `pick` finds in the events. */
  function LastIn<T>(pick: Event -> Option<T>, events: seq<Event>, otherwise: T): T {
    if events == [] then otherwise
    else
      var v := pick(events[|events| - 1]);
      if v.Some? then v.value else LastIn(pick, events[..|events| - 1], otherwise)
  }

  const IdIn := (e: Event) => if e.MessageStart? then e.id else None
  const NameIn := (e: Event) => if e.MessageStart? then e.name else None
  const IndexIn := (e: Event) => if e.BlockDelta? then Some(e.at) else None

  lemma {:induction false} Labels(m: Meta, events: seq<Event>)
    ensures var n := After(m, events);
            && n.id == LastIn(IdIn, events, m.id) && n.model == LastIn(NameIn, events, m.model)
            && n.index == LastIn(IndexIn, events, m.index) && n.created == m.created
  {
    if events != [] {
      var front, last := events[..|events| - 1], events[|events| - 1];
      Labels(m, front);
      HandleMore(m, front, last);
      assert events == front + [last];
    }
  }

  /** What a chunk says for one event. */
  predicate Tells(e: Event, delta: Delta) {
    match e
    case MessageStart(_, _) => delta.Role?
    case BlockDelta(thinking, text, _) =>
      || (text == "assistant" && delta.Role?)
      || (text != "assistant" && thinking && delta == Reasoning(text))
      || (text != "assistant" && !thinking && text != "" && delta == Content(text))
      || (text == "" && !thinking && delta.Nothing?)
    case _ => delta.Nothing?
  }

  /**
   Each event but the ignored ones sends one chunk. It carries the id, model and block index last given,
   the finish reason last given only if it is for a message delta or stop, and the token count last given
   only if it is for a stop.
   */
  lemma OneChunkEach(m: Meta, events: seq<Event>, e: Event)
    ensures e.Ignored? ==> Chunks(m, events + [e]) == Chunks(m, events)
    ensures !e.Ignored? ==>
              var now := events + [e];
              exists c ::
                && Chunks(m, now) == Chunks(m, events) + [c] && c.Data? && Tells(e, c.delta)
                && c.id == LastIn(IdIn, now, m.id) && c.model == LastIn(NameIn, now, m.model)
                && c.index == LastIn(IndexIn, now, m.index) && c.created == m.created
                && c.finish == (if e.MessageDelta? || e.MessageStop? then LastFinish(now, m.finish) else None)
                && c.usage == if e.MessageStop? then Some(LastOutput(now, m.tokens)) else None
  {
    hide Chunks, After, LastFinish, LastOutput, LastIn;
    HandleMore(m, events, e);
    Labels(m, events + [e]);
    Reported(m, events + [e]);
    if e.Ignored? {
      AppendEmpty(Chunks(m, events));
    } else {
      var c := Sent(After(m, events), e)[0];
      assert Sent(After(m, events), e) == [c];
    }
  }

  /** The finish reasons, and for which stop reasons they are given. */
  lemma FinishIs(reason: string)
    ensures FinishOf(reason) == "length" <==> reason == "max_tokens"
    ensures FinishOf(reason) == "tool_calls" <==> reason == "tool_use"
    ensures FinishOf(reason) == "stop" <==> reason !in {"max_tokens", "tool_use"}
  {
  }
}
