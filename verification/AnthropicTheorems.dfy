/**
 What the Anthropic relay keeps: which upstream events reach the client for every network chunking and
 every script of upstream answers, and which texts those events' chunks carry.
 */
module AnthropicTheorems {
  import opened Wrappers
  import opened Lines
  import opened Sequences
  import opened AnthropicRelay

  // ---- Network chunking ------------------------------------------------------------------

  /** The bytes the relay gets to see: up to the first error. */
  function Heard(script: seq<Upstream>): seq<byte> {
    if script == [] || script[0].Failure? then []
    else (if script[0].Bytes? then script[0].b else []) + Heard(script[1..])
  }

  predicate Fails(script: seq<Upstream>) { script != [] && (script[0].Failure? || Fails(script[1..])) }

  /** The events on the complete lines of a byte stream. */
  function Told(d: Decoder, b: seq<byte>): seq<Event> { EventsOf(d, CutLines(b).lines) }

  function Head(d: Decoder, line: seq<byte>): seq<Event> {
    var e := if line == [] then None else ReadLine(d, line[..|line| - 1]);
    if e.Some? then [e.value] else []
  }

  lemma {:induction false} EventsSplit(d: Decoder, a: seq<seq<byte>>, b: seq<seq<byte>>)
    ensures EventsOf(d, a + b) == EventsOf(d, a) + EventsOf(d, b)
  {
    hide ReadLine;
    if a == [] {
      assert a + b == b && [] + EventsOf(d, b) == EventsOf(d, b);
    } else {
      assert (a + b)[1..] == a[1..] + b;
      EventsSplit(d, a[1..], b);
      assert EventsOf(d, a) == Head(d, a[0]) + EventsOf(d, a[1..]);
      Assoc(Head(d, a[0]), EventsOf(d, a[1..]), EventsOf(d, b));
    }
  }

  lemma ToldMore(d: Decoder, a: seq<byte>, b: seq<byte>)
    ensures Told(d, a + b) == Told(d, a) + Told(d, CutLines(a).rest + b)
  {
    hide EventsOf, CutLines;
    CutMore(a, b);
    EventsSplit(d, CutLines(a).lines, CutLines(CutLines(a).rest + b).lines);
  }

  predicate NoStop(events: seq<Event>) { MessageStop !in events }

  function Closing(events: seq<Event>, script: seq<Upstream>): seq<Chunk> {
    if NoStop(events) && !Fails(script) then [DoneMark, DoneMark] else []
  }

  /**
   What is sent, for every script of upstream answers: the chunks of the first `n` upstream events, and
   two end marks if the upstream ended without an error or a message stop. Without a message stop these
   are all events; otherwise at least those up to the first message stop.
   */
  lemma {:induction false} RelaysEvents(d: Decoder, m: Meta, buf: seq<byte>, script: seq<Upstream>) returns (n: nat)
    requires CutLines(buf).lines == []
    ensures n <= |Told(d, buf + Heard(script))|
    ensures var events := Told(d, buf + Heard(script));
            && Rest(d, m, buf, script) == Chunks(m, events[..n]) + Closing(events, script)
            && (NoStop(events[..n]) ==> n == |events|)
    decreases |script|
  {
    hide CutLines, EventsOf, Chunks, After, Rest, Heard, Fails, Told;
    RestNow(d, m, buf, script);
    HeardNow(script);
    if script == [] || script[0].Failure? {
      n := 0;
      AppendEmpty(buf);
      HandleNone(d, m);
      assert Told(d, buf) == [] by { ToldNothing(d, buf); }
    } else if script[0].NotYet? {
      n := RelaysEvents(d, m, buf, script[1..]);
    } else {
      var b, heard := buf + script[0].b, Heard(script[1..]);
      var rest := CutLines(b).rest;
      var now, later := Told(d, b), Told(d, rest + heard);
      Assoc(buf, script[0].b, heard);
      ToldMore(d, b, heard);
      assert EventsOf(d, CutLines(b).lines) == now by { ToldIs(d, b); }
      if NoStop(now) {
        RestIsCut(b);
        var k := RelaysEvents(d, After(m, now), rest, script[1..]);
        n := |now| + k;
        MoreEvents(m, now, later, k, script[1..]);
        assert Closing(now + later, script) == Closing(now + later, script[1..]);
      } else {
        n := |now|;
        assert (now + later)[..n] == now;
        AppendEmpty(Chunks(m, now));
      }
    }
  }

  lemma HeardNow(script: seq<Upstream>)
    ensures script == [] || script[0].Failure? ==> Heard(script) == [] && Fails(script) == (script != [])
    ensures script != [] && script[0].NotYet? ==>
            Heard(script) == Heard(script[1..]) && Fails(script) == Fails(script[1..])
    ensures script != [] && script[0].Bytes? ==>
            Heard(script) == script[0].b + Heard(script[1..]) && Fails(script) == Fails(script[1..])
  {
  }

  lemma ToldIs(d: Decoder, b: seq<byte>)
    ensures EventsOf(d, CutLines(b).lines) == Told(d, b)
  {
    hide EventsOf, CutLines;
  }

  lemma ToldNothing(d: Decoder, b: seq<byte>)
    requires CutLines(b).lines == []
    ensures Told(d, b) == []
  {
    hide CutLines;
  }

  lemma MoreEvents(m: Meta, now: seq<Event>, later: seq<Event>, k: nat, script: seq<Upstream>)
    requires NoStop(now) && k <= |later|
    ensures NoStop(now + later) == NoStop(later)
    ensures NoStop((now + later)[..|now| + k]) == NoStop(later[..k])
    ensures Chunks(m, (now + later)[..|now| + k]) + Closing(now + later, script) ==
            Chunks(m, now) + (Chunks(After(m, now), later[..k]) + Closing(later, script))
  {
    hide Chunks, After;
    assert (now + later)[..|now| + k] == now + later[..k];
    HandleSplit(m, now, later[..k]);
    Assoc(Chunks(m, now), Chunks(After(m, now), later[..k]), Closing(later, script));
  }

  /** What is left after cutting has no line in it. */
  lemma RestIsCut(b: seq<byte>)
    ensures CutLines(CutLines(b).rest).lines == []
  {
    CutKeeps(b);
    var rest := CutLines(b).rest;
    assert FirstLF(rest) == |rest|;
  }

  /** Events that send nothing. */
  predicate Quiet(events: seq<Event>) { forall i :: 0 <= i < |events| ==> events[i].Ignored? }

  lemma {:induction false} QuietSendsNothing(m: Meta, events: seq<Event>)
    ensures Chunks(m, events) == [] <==> Quiet(events)
    decreases |events|
  {
    if events != [] {
      QuietSendsNothing(Step(m, events[0]), events[1..]);
      assert Quiet(events[1..]) ==> forall i :: 0 < i < |events| ==> events[i] == events[1..][i - 1];
    }
  }

  /** Index just behind the first message stop; the length if there is none. */
  function StopEnd(events: seq<Event>): (k: nat)
    ensures k <= |events|
    ensures NoStop(events) ==> k == |events|
  {
    if events == [] then 0 else if events[0].MessageStop? then 1 else StopEnd(events[1..]) + 1
  }

  lemma {:induction false} StopEndLeast(events: seq<Event>, n: nat)
    requires n <= |events| && (NoStop(events[..n]) ==> n == |events|)
    ensures StopEnd(events) <= n
  {
    if events != [] && !events[0].MessageStop? && n > 0 {
      assert events[..n] == [events[0]] + events[1..][..n - 1];
      StopEndLeast(events[1..], n - 1);
    }
  }

  /** If nothing but ignored events follows the message stop, the output is a function of the bytes. */
  lemma ChunkingIrrelevant(d: Decoder, m: Meta, script: seq<Upstream>)
    requires var events := Told(d, Heard(script)); Quiet(events[StopEnd(events)..])
    ensures var events := Told(d, Heard(script));
            Rest(d, m, [], script) == Chunks(m, events) + Closing(events, script)
  {
    hide Chunks, EventsOf, CutLines, Rest, StopEnd;
    assert CutLines([]).lines == [] by { CutStep([]); }
    var n := RelaysEvents(d, m, [], script);
    assert [] + Heard(script) == Heard(script);
    var events := Told(d, Heard(script));
    StopEndLeast(events, n);
    assert events == events[..n] + events[n..];
    HandleSplit(m, events[..n], events[n..]);
    assert Quiet(events[n..]) by {
      var k := StopEnd(events);
      assert forall i :: 0 <= i < |events[n..]| ==> events[n..][i] == events[k..][i + n - k];
    }
    QuietSendsNothing(After(m, events[..n]), events[n..]);
  }

  /**
   Otherwise it is not: with a message stop on the lines of `a`, the same bytes in one network chunk
   and in two are relayed alike if and only if what follows is ignored.
   */
  lemma ChunkingAfterStop(d: Decoder, m: Meta, a: seq<byte>, b: seq<byte>)
    requires !NoStop(Told(d, a))
    ensures Rest(d, m, [], [Bytes(a), Bytes(b)]) == Rest(d, m, [], [Bytes(a + b)]) <==>
            Quiet(Told(d, CutLines(a).rest + b))
  {
    hide Chunks, EventsOf, CutLines, Rest, After, Quiet;
    RestNow(d, m, [], [Bytes(a), Bytes(b)]);
    RestNow(d, m, [], [Bytes(a + b)]);
    assert [] + a == a && [] + (a + b) == a + b;
    ToldMore(d, a, b);
    var first, later := Told(d, a), Told(d, CutLines(a).rest + b);
    HandleSplit(m, first, later);
    QuietSendsNothing(After(m, first), later);
    assert MessageStop in first + later;
    assert Chunks(m, first) + [] == Chunks(m, first);
  }

  // ---- End marks -------------------------------------------------------------------------

  function Marks(chunks: seq<Chunk>): nat {
    if chunks == [] then 0 else (if chunks[0].DoneMark? then 1 else 0) + Marks(chunks[1..])
  }

  lemma MarksSplit(a: seq<Chunk>, b: seq<Chunk>)
    ensures Marks(a + b) == Marks(a) + Marks(b)
  {
    if a == [] {
      assert a + b == b;
    } else {
      assert (a + b)[1..] == a[1..] + b;
    }
  }

  lemma {:induction false} NoMarks(m: Meta, events: seq<Event>)
    ensures Marks(Chunks(m, events)) == 0
    decreases |events|
  {
    if events != [] {
      NoMarks(Step(m, events[0]), events[1..]);
      MarksSplit(Sent(m, events[0]), Chunks(Step(m, events[0]), events[1..]));
    }
  }

  /** The stream never ends with one `[DONE]`: two if the upstream just ends, none otherwise. */
  lemma EndMarks(d: Decoder, m: Meta, script: seq<Upstream>)
    ensures Marks(Rest(d, m, [], script)) == if NoStop(Told(d, Heard(script))) && !Fails(script) then 2 else 0
  {
    hide Chunks, EventsOf, CutLines, Rest;
    assert CutLines([]).lines == [] by { CutStep([]); }
    var n := RelaysEvents(d, m, [], script);
    assert [] + Heard(script) == Heard(script);
    var events := Told(d, Heard(script));
    NoMarks(m, events[..n]);
    MarksSplit(Chunks(m, events[..n]), Closing(events, script));
    assert Marks([DoneMark, DoneMark]) == 2;
  }

  // ---- Content ---------------------------------------------------------------------------

  /** A piece of answer text or of thinking. */
  datatype Piece = Said(text: string) | Thought(text: string)

  /** What the upstream says, piece by piece; an empty text delta is no piece. */
  function Spoken(events: seq<Event>): seq<Piece> {
    if events == [] then [] else SpokenBy(events[0]) + Spoken(events[1..])
  }

  function SpokenBy(e: Event): seq<Piece> {
    if !e.BlockDelta? then []
    else if e.thinking then [Thought(e.text)]
    else if e.text != "" then [Said(e.text)]
    else []
  }

  /** What a client reads in the chunks, in order. */
  function Received(chunks: seq<Chunk>): seq<Piece> {
    if chunks == [] then [] else PieceIn(chunks[0]) + Received(chunks[1..])
  }

  function PieceIn(c: Chunk): seq<Piece> {
    if c.Data? && c.delta.Reasoning? then [Thought(c.delta.text)]
    else if c.Data? && c.delta.Content? then [Said(c.delta.text)]
    else []
  }

  function Dropping(pieces: seq<Piece>, text: string): seq<Piece> {
    if pieces == [] then [] else (if pieces[0].text == text then [] else [pieces[0]]) + Dropping(pieces[1..], text)
  }

  lemma {:induction false} ReceivedSplit(a: seq<Chunk>, b: seq<Chunk>)
    ensures Received(a + b) == Received(a) + Received(b)
  {
    if a == [] {
      assert a + b == b && [] + Received(b) == Received(b);
    } else {
      assert (a + b)[1..] == a[1..] + b;
      ReceivedSplit(a[1..], b);
      Assoc(PieceIn(a[0]), Received(a[1..]), Received(b));
    }
  }

  lemma {:induction false} DroppingSplit(a: seq<Piece>, b: seq<Piece>, text: string)
    ensures Dropping(a + b, text) == Dropping(a, text) + Dropping(b, text)
  {
    if a == [] {
      assert a + b == b && [] + Dropping(b, text) == Dropping(b, text);
    } else {
      assert (a + b)[1..] == a[1..] + b;
      DroppingSplit(a[1..], b, text);
      Assoc(if a[0].text == text then [] else [a[0]], Dropping(a[1..], text), Dropping(b, text));
    }
  }

  lemma {:induction false} DroppedShorter(pieces: seq<Piece>, text: string)
    ensures |Dropping(pieces, text)| <= |pieces|
    ensures Dropping(pieces, text) == pieces <==> forall p :: p in pieces ==> p.text != text
  {
    if pieces != [] {
      DroppedShorter(pieces[1..], text);
      assert pieces == [pieces[0]] + pieces[1..];
      if pieces[0].text == text {
        assert |Dropping(pieces, text)| < |pieces|;
        assert pieces[0] in pieces;
      } else {
        assert Dropping(pieces, text)[1..] == Dropping(pieces[1..], text);
      }
    }
  }

  lemma OneEvent(m: Meta, e: Event)
    ensures Received(Sent(m, e)) == Dropping(SpokenBy(e), "assistant")
  {
    var sent := Sent(m, e);
    if sent != [] {
      assert sent[1..] == [] && Received(sent) == PieceIn(sent[0]) + [];
    }
    if SpokenBy(e) != [] {
      assert SpokenBy(e)[1..] == [];
    }
  }

  lemma NothingReceived(m: Meta)
    ensures Received(Chunks(m, [])) == []
  {
  }

  /** The client reads every text and thinking delta, in order, but those that say "assistant". */
  lemma {:induction false} ContentRelayed(m: Meta, events: seq<Event>)
    ensures Received(Chunks(m, events)) == Dropping(Spoken(events), "assistant")
    decreases |events|
  {
    hide Step, Sent, Dropping, SpokenBy, Received;
    if events == [] {
      assert Dropping([], "assistant") == [] by { DroppedShorter([], "assistant"); }
      assert Received(Chunks(m, events)) == [] by { NothingReceived(m); }
    } else {
      var e, rest := events[0], events[1..];
      ContentRelayed(Step(m, e), rest);
      ReceivedSplit(Sent(m, e), Chunks(Step(m, e), rest));
      OneEvent(m, e);
      DroppingSplit(SpokenBy(e), Spoken(rest), "assistant");
    }
  }

  /** So content is preserved exactly when no delta's text is the word the relay takes for the role. */
  lemma ContentPreservedExactly(m: Meta, events: seq<Event>)
    ensures Received(Chunks(m, events)) == Spoken(events) <==> forall p :: p in Spoken(events) ==> p.text != "assistant"
  {
    hide Chunks, Received, Spoken, Dropping;
    ContentRelayed(m, events);
    DroppedShorter(Spoken(events), "assistant");
  }

  lemma {:induction false} SpokenSplit(a: seq<Event>, b: seq<Event>)
    ensures Spoken(a + b) == Spoken(a) + Spoken(b)
  {
    if a == [] {
      assert a + b == b && [] + Spoken(b) == Spoken(b);
    } else {
      assert (a + b)[1..] == a[1..] + b;
      SpokenSplit(a[1..], b);
      Assoc(SpokenBy(a[0]), Spoken(a[1..]), Spoken(b));
    }
  }

  /**
   Over every script and every chunking: of what was spoken, but for the deltas that say "assistant", the
   client reads at least all up to the message stop, at most all, and nothing out of order.
   */
  lemma ContentDelivered(d: Decoder, m: Meta, script: seq<Upstream>)
    ensures var events := Told(d, Heard(script));
            var received := Received(Rest(d, m, [], script));
            && Dropping(Spoken(events[..StopEnd(events)]), "assistant") <= received
            && received <= Dropping(Spoken(events), "assistant")
  {
    hide Chunks, EventsOf, CutLines, Rest, Received, Spoken, StopEnd, Dropping;
    assert CutLines([]).lines == [] by { CutStep([]); }
    var n := RelaysEvents(d, m, [], script);
    assert [] + Heard(script) == Heard(script);
    var events := Told(d, Heard(script));
    var k := StopEnd(events);
    StopEndLeast(events, n);
    assert events == events[..n] + events[n..] && events[..n] == events[..k] + events[k..n];
    SpokenSplit(events[..n], events[n..]);
    SpokenSplit(events[..k], events[k..n]);
    DroppingSplit(Spoken(events[..n]), Spoken(events[n..]), "assistant");
    DroppingSplit(Spoken(events[..k]), Spoken(events[k..n]), "assistant");
    ContentRelayed(m, events[..n]);
    ReceivedSplit(Chunks(m, events[..n]), Closing(events, script));
    assert Received(Closing(events, script)) == [] by { MarksAreSilent(events, script); }
  }

  lemma MarksAreSilent(events: seq<Event>, script: seq<Upstream>)
    ensures Received(Closing(events, script)) == []
  {
    assert Received([DoneMark]) == [] && Received([DoneMark, DoneMark][1..]) == [];
  }

  // ---- What the closing chunk reports ----------------------------------------------------

  function LastFinish(events: seq<Event>, otherwise: Option<string>): Option<string> {
    if events == [] then otherwise
    else
      var e := events[|events| - 1];
      if !e.MessageDelta? then LastFinish(events[..|events| - 1], otherwise)
      else if e.reason.Some? then Some(FinishOf(e.reason.value))
      else None
  }

  function LastOutput(events: seq<Event>, otherwise: nat): nat {
    if events == [] then otherwise
    else
      var e := events[|events| - 1];
      if e.MessageDelta? && e.output.Some? then e.output.value % U32 else LastOutput(events[..|events| - 1], otherwise)
  }

  lemma {:induction false} Reported(m: Meta, events: seq<Event>)
    ensures After(m, events).finish == LastFinish(events, m.finish) &&
            After(m, events).tokens == LastOutput(events, m.tokens)
  {
    if events != [] {
      var front, last := events[..|events| - 1], events[|events| - 1];
      Reported(m, front);
      HandleMore(m, front, last);
      assert events == front + [last];
    }
  }

  /** A message stop sends, last, the finish reason and token count last reported before it. */
  lemma ClosingChunk(m: Meta, events: seq<Event>)
    ensures var sent := Chunks(m, events + [MessageStop]);
            && |sent| == |Chunks(m, events)| + 1
            && var c := sent[|sent| - 1];
               && c.Data? && c.delta.Nothing?
               && c.finish == LastFinish(events, m.finish) && c.usage == Some(LastOutput(events, m.tokens))
  {
    hide Chunks, After, LastFinish, LastOutput;
    HandleMore(m, events, MessageStop);
    Reported(m, events);
  }
}
