/**
 The Anthropic-to-OpenAI stream relay of `src/provider/anthropic_stream.rs`.

 UTF-8, JSON and the reading of a JSON number as `u64` enter as the functions of a `Decoder`; a chunk
 is the value that the source serialises. The upstream is a script of the answers it will give, as for
 the normalising stream; an exhausted script is end of stream.
 */
module AnthropicRelay {
  import opened Wrappers
  import opened Lines
  import opened Sequences
  import SN = StreamNormalize

  datatype Decoder = Decoder(
    decode: seq<byte> -> Option<string>,
    parse: string -> Option<SN.Json>,
    u64: string -> Option<nat>)

  // ---- Upstream events -------------------------------------------------------------------

  datatype Event =
    | MessageStart(id: Option<string>, name: Option<string>)
    | BlockDelta(thinking: bool, text: string, at: nat)
    | MessageDelta(reason: Option<string>, output: Option<nat>)
    | MessageStop
    | Ignored

  function Field(v: Option<SN.Json>, key: string): Option<SN.Json> { if v.Some? then SN.Get(v.value, key) else None }

  function StrIn(v: Option<SN.Json>, key: string): Option<string> {
    var f := Field(v, key);
    if f.Some? && f.value.Str? then Some(f.value.s) else None
  }

  function NatIn(d: Decoder, v: Option<SN.Json>, key: string): Option<nat> {
    var f := Field(v, key);
    if f.Some? && f.value.Number? then d.u64(f.value.repr) else None
  }

  function OrElse<T>(o: Option<T>, otherwise: T): T { if o.Some? then o.value else otherwise }

  function EventOf(d: Decoder, v: SN.Json): Event {
    var kind := OrElse(StrIn(Some(v), "type"), "");
    if kind == "message_start" then
      MessageStart(StrIn(SN.Get(v, "message"), "id"), StrIn(SN.Get(v, "message"), "model"))
    else if kind == "content_block_delta" then
      var delta := SN.Get(v, "delta");
      var thinking := StrIn(delta, "type") == Some("thinking_delta");
      var text := StrIn(delta, if thinking then "thinking" else "text");
      BlockDelta(thinking, OrElse(text, ""), OrElse(NatIn(d, Some(v), "index"), 0))
    else if kind == "message_delta" then
      MessageDelta(StrIn(SN.Get(v, "delta"), "stop_reason"), NatIn(d, SN.Get(v, "usage"), "output_tokens"))
    else if kind == "message_stop" then MessageStop
    else Ignored
  }

  function TrimEnd(s: string): string { if s != "" && SN.IsSpace(s[|s| - 1]) then TrimEnd(s[..|s| - 1]) else s }

  /** What a line, without its LF, tells the relay. */
  function ReadLine(d: Decoder, line: seq<byte>): Option<Event> {
    var text := TrimEnd(SN.TrimStart(OrElse(d.decode(line), "")));
    if !("data: " <= text) || text[6..] == "" then None
    else
      var v := d.parse(text[6..]);
      if v.Some? then Some(EventOf(d, v.value)) else None
  }

  function EventsOf(d: Decoder, lines: seq<seq<byte>>): seq<Event> {
    if lines == [] then []
    else
      var e := if lines[0] == [] then None else ReadLine(d, lines[0][..|lines[0]| - 1]);
      (if e.Some? then [e.value] else []) + EventsOf(d, lines[1..])
  }

  // ---- What the client is sent -----------------------------------------------------------

  datatype Delta = Role | Reasoning(text: string) | Content(text: string) | Nothing

  datatype Chunk =
    | Data(
        id: string, model: string, created: nat, index: nat, delta: Delta, finish: Option<string>, usage: Option<nat>)
    | DoneMark

  datatype Meta = Meta(id: string, model: string, created: nat, index: nat, tokens: nat, finish: Option<string>)

  const U32: nat := 0x1_0000_0000

  function FinishOf(reason: string): string {
    if reason == "max_tokens" then "length" else if reason == "tool_use" then "tool_calls" else "stop"
  }

  function DeltaOf(text: string, reasoning: bool): Delta {
    if text == "assistant" then Role
    else if reasoning then Reasoning(text)
    else if text == "" then Nothing
    else Content(text)
  }

  function Emit(m: Meta, text: string, finish: Option<string>, reasoning: bool): Chunk {
    Data(m.id, m.model, m.created, m.index, DeltaOf(text, reasoning), finish, None)
  }

  function Step(m: Meta, e: Event): Meta {
    match e
    case MessageStart(id, name) => m.(id := OrElse(id, m.id), model := OrElse(name, m.model))
    case BlockDelta(_, _, at) => m.(index := at)
    case MessageDelta(reason, output) =>
      m.(finish := if reason.Some? then Some(FinishOf(reason.value)) else None,
         tokens := if output.Some? then output.value % U32 else m.tokens)
    case MessageStop => m
    case Ignored => m
  }

  function Sent(m: Meta, e: Event): seq<Chunk> {
    var n := Step(m, e);
    match e
    case MessageStart(_, _) => [Emit(n, "assistant", None, false)]
    case BlockDelta(thinking, text, _) => [Emit(n, text, None, thinking)]
    case MessageDelta(_, _) => [Emit(n, "", n.finish, false)]
    case MessageStop => [Data(n.id, n.model, n.created, n.index, Nothing, n.finish, Some(n.tokens))]
    case Ignored => []
  }

  function After(m: Meta, events: seq<Event>): Meta
    decreases |events|
  {
    if events == [] then m else After(Step(m, events[0]), events[1..])
  }

  function Chunks(m: Meta, events: seq<Event>): seq<Chunk>
    decreases |events|
  {
    if events == [] then [] else Sent(m, events[0]) + Chunks(Step(m, events[0]), events[1..])
  }

  datatype Poll = Ready(chunk: Chunk) | Failed(e: string) | Ended | Pending

  /** All that is sent from here on, with `buf` buffered and no message stop so far. */
  function Rest(d: Decoder, m: Meta, buf: seq<byte>, script: seq<Upstream>): seq<Chunk>
    decreases |script|
  {
    if script == [] then [DoneMark, DoneMark]
    else
      match script[0]
      case Failure(_) => []
      case NotYet => Rest(d, m, buf, script[1..])
      case Bytes(b) =>
        var cut := CutLines(buf + b);
        var events := EventsOf(d, cut.lines);
        Chunks(m, events) + if MessageStop in events then [] else Rest(d, After(m, events), cut.rest, script[1..])
  }

  // ---- The relay's mutable state ---------------------------------------------------------

  class RelayState {
    var messageId: string
    var model: string
    const created: nat
    var contentIdx: nat
    var streamedTokens: nat
    var finishReason: Option<string>
    var buffer: seq<byte>
    var pending: seq<Chunk>
    var done: bool

    ghost function View(): Meta
      reads this
    {
      Meta(messageId, model, created, contentIdx, streamedTokens, finishReason)
    }

    constructor (id: string, model: string, created: nat)
      ensures View() == Meta(id, model, created, 0, 0, None) && buffer == [] && pending == [] && !done
    {
      this.messageId, this.model, this.created := id, model, created;
      contentIdx, streamedTokens, finishReason, buffer, pending, done := 0, 0, None, [], [], false;
    }

    method EmitChunk(text: string, finish: Option<string>, reasoning: bool) returns (c: Chunk)
      ensures c == Emit(View(), text, finish, reasoning)
    {
      c := Data(messageId, model, created, contentIdx, DeltaOf(text, reasoning), finish, None);
    }

    method ProcessEvent(e: Event)
      modifies this
      ensures View() == Step(old(View()), e) && pending == old(pending) + Sent(old(View()), e)
      ensures done == (old(done) || e.MessageStop?) && buffer == old(buffer)
    {
      match e
      case MessageStart(id, name) =>
        if id.Some? { messageId := id.value; }
        if name.Some? { model := name.value; }
        var c := EmitChunk("assistant", None, false);
        pending := pending + [c];
      case BlockDelta(thinking, text, at) =>
        contentIdx := at;
        var c := EmitChunk(text, None, thinking);
        pending := pending + [c];
      case MessageDelta(reason, output) =>
        finishReason := if reason.Some? then Some(FinishOf(reason.value)) else None;
        if output.Some? { streamedTokens := output.value % U32; }
        var c := EmitChunk("", finishReason, false);
        pending := pending + [c];
      case MessageStop =>
        pending := pending + [Data(messageId, model, created, contentIdx, Nothing, finishReason, Some(streamedTokens))];
        done := true;
      case Ignored =>
    }

    /** `feed_bytes`: all complete lines are processed, also those after a message stop. */
    method FeedBytes(d: Decoder, bytes: seq<byte>)
      modifies this
      ensures var cut := CutLines(old(buffer) + bytes);
              var events := EventsOf(d, cut.lines);
              && buffer == cut.rest && View() == After(old(View()), events)
              && pending == old(pending) + Chunks(old(View()), events)
              && done == (old(done) || MessageStop in events)
    {
      hide ReadLine, CutLines, FirstLF, Sent, Step, EventsOf, After, Chunks;
      ghost var m := View();
      ghost var all := CutLines(buffer + bytes);
      ghost var seen: seq<Event> := [];
      buffer := buffer + bytes;
      HandleNone(d, m);
      while true
        invariant EventsOf(d, all.lines) == seen + EventsOf(d, CutLines(buffer).lines) &&
                  all.rest == CutLines(buffer).rest
        invariant View() == After(m, seen) && pending == old(pending) + Chunks(m, seen)
        invariant done == (old(done) || MessageStop in seen)
        decreases |buffer|
      {
        CutStep(buffer);
        var pos := FirstLF(buffer);
        if pos == |buffer| {
          HandleNone(d, m);
          assert seen + [] == seen;
          return;
        }
        var line := buffer[..pos];
        EventsCons(d, buffer[..pos + 1], CutLines(buffer[pos + 1..]).lines);
        assert buffer[..pos + 1][..pos] == line;
        buffer := buffer[pos + 1..];
        var e := ReadLine(d, line);
        if e.Some? {
          ProcessEvent(e.value);
          HandleMore(m, seen, e.value);
          Assoc(seen, [e.value], EventsOf(d, CutLines(buffer).lines));
          Assoc(old(pending), Chunks(m, seen), Sent(After(m, seen), e.value));
          seen := seen + [e.value];
        } else {
          assert [] + EventsOf(d, CutLines(buffer).lines) == EventsOf(d, CutLines(buffer).lines);
        }
      }
    }

    method NextChunk() returns (c: Option<Chunk>)
      modifies this`pending
      ensures c.None? ==> old(pending) == [] && pending == []
      ensures c.Some? ==> old(pending) == [c.value] + pending
    {
      if pending == [] {
        return None;
      }
      c := Some(pending[0]);
      pending := pending[1..];
    }
  }

  lemma HandleNone(d: Decoder, m: Meta)
    ensures EventsOf(d, []) == [] && After(m, []) == m && Chunks(m, []) == []
  {
  }

  lemma EventsCons(d: Decoder, line: seq<byte>, lines: seq<seq<byte>>)
    requires line != []
    ensures var e := ReadLine(d, line[..|line| - 1]);
            EventsOf(d, [line] + lines) == (if e.Some? then [e.value] else []) + EventsOf(d, lines)
  {
    assert ([line] + lines)[1..] == lines;
  }

  /** Handling a run of events, then more, is handling them all. */
  lemma {:induction false} HandleSplit(m: Meta, a: seq<Event>, b: seq<Event>)
    ensures After(m, a + b) == After(After(m, a), b)
    ensures Chunks(m, a + b) == Chunks(m, a) + Chunks(After(m, a), b)
    decreases |a|
  {
    hide Step, Sent;
    if a == [] {
      assert a + b == b && [] + Chunks(m, b) == Chunks(m, b);
    } else {
      assert (a + b)[1..] == a[1..] + b;
      var n := Step(m, a[0]);
      HandleSplit(n, a[1..], b);
      Assoc(Sent(m, a[0]), Chunks(n, a[1..]), Chunks(After(n, a[1..]), b));
    }
  }

  lemma HandleMore(m: Meta, a: seq<Event>, e: Event)
    ensures After(m, a + [e]) == Step(After(m, a), e)
    ensures Chunks(m, a + [e]) == Chunks(m, a) + Sent(After(m, a), e)
  {
    HandleSplit(m, a, [e]);
    var n := After(m, a);
    assert [e][1..] == [];
    assert After(n, [e]) == Step(n, e) && Chunks(n, [e]) == Sent(n, e) + [];
  }

  lemma {:induction false} RestNow(d: Decoder, m: Meta, buf: seq<byte>, script: seq<Upstream>)
    ensures script == [] ==> Rest(d, m, buf, script) == [DoneMark, DoneMark]
    ensures script != [] && script[0].Failure? ==> Rest(d, m, buf, script) == []
    ensures script != [] && script[0].NotYet? ==> Rest(d, m, buf, script) == Rest(d, m, buf, script[1..])
    ensures script != [] && script[0].Bytes? ==>
              var cut := CutLines(buf + script[0].b);
              var events := EventsOf(d, cut.lines);
              Rest(d, m, buf, script) ==
              Chunks(m, events) + if MessageStop in events then [] else Rest(d, After(m, events), cut.rest, script[1..])
  {
    hide EventsOf, CutLines, Chunks, After;
  }

  class Relay {
    const decoder: Decoder
    const state: RelayState
    var upstream: seq<Upstream>
    var upstreamDone: bool

    ghost function ToSend(): seq<Chunk>
      reads this, state
    {
      state.pending + if state.done || upstreamDone then [] else Rest(decoder, state.View(), state.buffer, upstream)
    }

    constructor (decoder: Decoder, script: seq<Upstream>, id: string, model: string, created: nat)
      ensures fresh(state) && upstream == script && !upstreamDone
      ensures ToSend() == Rest(decoder, Meta(id, model, created, 0, 0, None), [], script)
    {
      hide Rest;
      this.decoder, this.upstream, this.upstreamDone := decoder, script, false;
      this.state := new RelayState(id, model, created);
    }

    /**
     The second half of `poll_next`, once the queue was found empty. An upstream that has ended cannot
     have queued anything then, so of the three outcomes at end of stream only the `[DONE]` one remains.
     */
    method PollUpstream() returns (r: Poll)
      requires state.pending == [] && !state.done && !upstreamDone
      modifies this, state
      ensures !r.Ended? && (if r.Ready? then [r.chunk] else []) + ToSend() == old(ToSend())
      ensures |upstream| < |old(upstream)| || (upstream == old(upstream) && upstreamDone)
    {
      hide EventsOf, CutLines, Chunks, After, Rest;
      RestNow(decoder, state.View(), state.buffer, upstream);
      if upstream == [] {
        upstreamDone := true;
        state.pending := state.pending + [DoneMark];
        state.done := true;
        return Ready(DoneMark);
      }
      var answer := upstream[0];
      upstream := upstream[1..];
      match answer
      case Failure(e) =>
        upstreamDone := true;
        return Failed(e);
      case NotYet => return Poll.Pending;
      case Bytes(b) =>
        state.FeedBytes(decoder, b);
        assert [] + ToSend() == ToSend() == old(ToSend());
        var c := state.NextChunk();
        if c.Some? {
          ghost var later := if state.done then [] else Rest(decoder, state.View(), state.buffer, upstream);
          Assoc([c.value], state.pending, later);
          return Ready(c.value);
        }
        return Poll.Pending;
    }

    /** `poll_next`: every chunk still to be sent is delivered, in order. */
    method PollNext() returns (r: Poll)
      modifies this, state
      ensures (if r.Ready? then [r.chunk] else []) + ToSend() == old(ToSend())
      ensures r.Ended? ==> ToSend() == []
      ensures !r.Ended? ==> || |upstream| < |old(upstream)|
                            || (upstream == old(upstream) && upstreamDone && !old(upstreamDone))
                            || (&& upstream == old(upstream) && upstreamDone == old(upstreamDone)
                                && |state.pending| < |old(state.pending)|)
    {
      hide Rest;
      var c := state.NextChunk();
      if c.Some? {
        ghost var open := !state.done && !upstreamDone;
        ghost var later := if open then Rest(decoder, state.View(), state.buffer, upstream) else [];
        Assoc([c.value], state.pending, later);
        return Ready(c.value);
      }
      if state.done || upstreamDone {
        return Ended;
      }
      r := PollUpstream();
    }
  }

  /** A consumer that polls to the end receives every queued chunk, in order. */
  method CollectAll(decoder: Decoder, script: seq<Upstream>, id: string, model: string, created: nat)
    returns (out: seq<Chunk>)
    ensures out == Rest(decoder, Meta(id, model, created, 0, 0, None), [], script)
  {
    hide Rest;
    var relay := new Relay(decoder, script, id, model, created);
    ghost var all := relay.ToSend();
    out := [];
    while true
      invariant fresh(relay) && fresh(relay.state) && out + relay.ToSend() == all
      decreases |relay.upstream|, !relay.upstreamDone, |relay.state.pending|
    {
      var r := relay.PollNext();
      if r.Ended? {
        return;
      }
      if r.Ready? {
        Assoc(out, [r.chunk], relay.ToSend());
        out := out + [r.chunk];
      } else {
        assert [] + relay.ToSend() == relay.ToSend();
      }
    }
  }
}
