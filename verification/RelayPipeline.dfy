/**
 The Anthropic relay feeding the normalising stream, as they run when think tags are to be stripped
 (`src/provider/anthropic.rs`, `src/server/handler.rs`): the relay's chunks as bytes, and what the client
 gets in the end, if it polls on after an error that is passed through to it.
 */
module RelayPipeline {
  import opened Wrappers
  import opened Lines
  import opened Sequences
  import opened ThinkTags
  import opened ThinkTagTheorems
  import opened ThinkTagAccumulator
  import AR = AnthropicRelay
  import AT = AnthropicTheorems
  import opened StreamNormalize
  import opened StreamTheorems
  import opened WireTheorems

  // ---- The relay's chunks as frames ------------------------------------------------------

  function DeltaJson(d: AR.Delta): Json {
    match d
    case Role => Obj(map["role" := Str("assistant")])
    case Reasoning(t) => Obj(map["reasoning_content" := Str(t)])
    case Content(t) => Obj(map["content" := Str(t)])
    case Nothing => Obj(map[])
  }

  /** `dec` writes a number in decimal. */
  function ChoiceJson(dec: nat -> string, k: AR.Chunk): Json
    requires k.Data?
  {
    Obj(map[
          "index" := Number(dec(k.index)),
          "delta" := DeltaJson(k.delta),
          "finish_reason" := if k.finish.Some? then Str(k.finish.value) else Null])
  }

  function UsageJson(dec: nat -> string, tokens: nat): Json {
    Obj(map[
          "completion_tokens" := Number(dec(tokens)),
          "prompt_tokens" := Number("0"),
          "total_tokens" := Number(dec(tokens))])
  }

  function ChunkJson(dec: nat -> string, k: AR.Chunk): Json
    requires k.Data?
  {
    var fields := map[
      "id" := Str(k.id),
      "object" := Str("chat.completion.chunk"),
      "created" := Number(dec(k.created)),
      "model" := Str(k.model),
      "choices" := Arr([ChoiceJson(dec, k)])];
    Obj(if k.usage.Some? then fields["usage" := UsageJson(dec, k.usage.value)] else fields)
  }

  function Frame(c: Codec, dec: nat -> string, k: AR.Chunk): Out {
    if k.DoneMark? then DoneFrame(c) else ChunkFrame(ChunkJson(dec, k), Data(c, ChunkJson(dec, k)))
  }

  function Frames(c: Codec, dec: nat -> string, chunks: seq<AR.Chunk>): seq<Out> {
    if chunks == [] then [] else [Frame(c, dec, chunks[0])] + Frames(c, dec, chunks[1..])
  }

  /** Decimal notation is a number to the JSON library. */
  ghost predicate Decimal(c: Codec, dec: nat -> string) { forall n :: c.numeral(dec(n)) }

  lemma LeafFits(c: Codec, depth: nat, v: Json)
    requires v.Null? || v.Str? || (v.Number? && c.numeral(v.repr))
    ensures FitsAt(c, depth, v)
  {
  }

  lemma DeltaFitsAt(c: Codec, depth: nat, d: AR.Delta)
    requires depth > 0
    ensures FitsAt(c, depth, DeltaJson(d))
  {
    hide FitsAt;
    ObjectFits(c, depth, DeltaJson(d).fields);
    forall k | k in DeltaJson(d).fields ensures FitsAt(c, depth - 1, DeltaJson(d).fields[k]) {
      LeafFits(c, depth - 1, DeltaJson(d).fields[k]);
    }
  }

  lemma ChoiceJsonFits(c: Codec, depth: nat, dec: nat -> string, k: AR.Chunk)
    requires depth > 1 && k.Data? && Decimal(c, dec)
    ensures FitsAt(c, depth, ChoiceJson(dec, k))
  {
    hide FitsAt;
    var m := ChoiceJson(dec, k).fields;
    ObjectFits(c, depth, m);
    LeafFits(c, depth - 1, m["index"]);
    DeltaFitsAt(c, depth - 1, k.delta);
    LeafFits(c, depth - 1, m["finish_reason"]);
  }

  lemma UsageFits(c: Codec, depth: nat, dec: nat -> string, tokens: nat)
    requires depth > 0 && Decimal(c, dec) && c.numeral("0")
    ensures FitsAt(c, depth, UsageJson(dec, tokens))
  {
    hide FitsAt;
    var m := UsageJson(dec, tokens).fields;
    ObjectFits(c, depth, m);
    LeafFits(c, depth - 1, Number(dec(tokens)));
    LeafFits(c, depth - 1, Number("0"));
  }

  lemma ChunkJsonFits(c: Codec, dec: nat -> string, k: AR.Chunk)
    requires LawfulJson(c) && k.Data? && Decimal(c, dec)
    ensures Fits(c, ChunkJson(dec, k))
  {
    hide FitsAt, LawfulJson, ChoiceJson, UsageJson;
    Roomy(c);
    var m := ChunkJson(dec, k).fields;
    ObjectFits(c, c.depth, m);
    LeafFits(c, c.depth - 1, Str(k.id));
    LeafFits(c, c.depth - 1, Str("chat.completion.chunk"));
    LeafFits(c, c.depth - 1, Number(dec(k.created)));
    LeafFits(c, c.depth - 1, Str(k.model));
    ChoiceJsonFits(c, c.depth - 2, dec, k);
    ArrayFits(c, c.depth - 1, [ChoiceJson(dec, k)]);
    if k.usage.Some? {
      UsageFits(c, c.depth - 1, dec, k.usage.value);
    }
  }

  lemma {:induction false} FramesReadBack(c: Codec, dec: nat -> string, chunks: seq<AR.Chunk>)
    requires Lawful(c) && Decimal(c, dec)
    ensures forall o :: o in Frames(c, dec, chunks) ==> ReadsBack(c, o) && !o.Raw?
    ensures CountDone(Frames(c, dec, chunks)) == AT.Marks(chunks)
  {
    hide LawfulText, LawfulJson, ReadsBack, ChunkJson, Fits, Data;
    if chunks != [] {
      FramesReadBack(c, dec, chunks[1..]);
      var k := chunks[0];
      if k.DoneMark? {
        DoneReadsBack(c);
      } else {
        ChunkJsonFits(c, dec, k);
        assert ChunkJson(dec, k).Obj? by { IsObject(dec, k); }
        DataReadsBack(c, ChunkJson(dec, k));
      }
      assert ([Frame(c, dec, k)] + Frames(c, dec, chunks[1..]))[1..] == Frames(c, dec, chunks[1..]);
    }
  }

  lemma IsObject(dec: nat -> string, k: AR.Chunk)
    requires k.Data?
    ensures ChunkJson(dec, k).Obj?
  {
  }

  // ---- The bytes between the two ---------------------------------------------------------

  /** The bytes that the relay hands to the normaliser. */
  function Relayed(c: Codec, dec: nat -> string, d: AR.Decoder, m: AR.Meta, script: seq<Upstream>): seq<byte> {
    Wire(Frames(c, dec, AR.Rest(d, m, [], script)))
  }

  lemma RelayedLines(c: Codec, dec: nat -> string, chunks: seq<AR.Chunk>)
    requires Lawful(c) && Decimal(c, dec)
    ensures var b := Wire(Frames(c, dec, chunks));
            && AllLines(b) == CutLines(b).lines && DoneLines(c, AllLines(b)) == AT.Marks(chunks)
  {
    hide Lawful, Frames, Wire, CutLines, ReadsBack, MarksSeen, CountDone, SeenAll, ReadOuts;
    FramesReadBack(c, dec, chunks);
    TextIsBlind();
    WireRead(c, ContentAt, Frames(c, dec, chunks));
    SeenAsSent(c, ContentAt, Frames(c, dec, chunks));
  }

  /**
   End to end: whatever the upstream script and its chunking, the client is sent exactly one `[DONE]` after
   a message stop or an error, and two if the upstream just ends.
   */
  lemma PipelineMarks(c: Codec, dec: nat -> string, d: AR.Decoder, m: AR.Meta, script: seq<Upstream>)
    requires Lawful(c) && Decimal(c, dec)
    ensures var ts := TagsOf(BuiltinPairs());
            var sent := Remaining(c, ts, FreshNorm, Relayed(c, dec, d, m, script));
            CountDone(sent) == if AT.NoStop(AT.Told(d, AT.Heard(script))) && !AT.Fails(script) then 2 else 1
  {
    hide Lawful, Frames, Wire, CutLines, Remaining, AllLines, CountDone, TagsOf, BuiltinPairs, AR.Rest;
    RelayedLines(c, dec, AR.Rest(d, m, [], script));
    DoneExactly(c, TagsOf(BuiltinPairs()), Relayed(c, dec, d, m, script));
    AT.EndMarks(d, m, script);
  }

  // ---- Content end to end ----------------------------------------------------------------

  /** The texts, as opposed to the thoughts, among what the relay delivers. */
  function Texts(pieces: seq<AT.Piece>): seq<string> {
    if pieces == [] then []
    else (if pieces[0].Said? && pieces[0].text != "" then [pieces[0].text] else []) + Texts(pieces[1..])
  }

  lemma {:induction false} TextsJoin(a: seq<AT.Piece>, b: seq<AT.Piece>)
    ensures Texts(a + b) == Texts(a) + Texts(b)
  {
    if a == [] {
      assert a + b == b;
      PrependEmpty(Texts(b));
    } else {
      assert (a + b)[1..] == a[1..] + b;
      TextsJoin(a[1..], b);
      Assoc(if a[0].Said? && a[0].text != "" then [a[0].text] else [], Texts(a[1..]), Texts(b));
    }
  }

  lemma {:induction false} AlikeContents(depth: nat, a: seq<Json>, b: seq<Json>)
    requires Blind(ContentAt) && |a| == |b| && forall i :: 0 <= i < |a| ==> Alike(depth, a[i], b[i])
    ensures Contents(a) == Contents(b)
  {
    hide Alike, ContentAt;
    if a != [] {
      AlikeContents(depth, a[..|a| - 1], b[..|b| - 1]);
    }
  }

  lemma ChunkContents(dec: nat -> string, k: AR.Chunk)
    requires k.Data?
    ensures ChoicesOf(ChunkJson(dec, k)) == [ChoiceJson(dec, k)]
    ensures Contents([ChoiceJson(dec, k)]) == Texts(AT.PieceIn(k))
  {
    var choice := ChoiceJson(dec, k);
    assert [choice][..0] == [];
    assert ContentAt(choice) == if k.delta.Content? then k.delta.text else "";
    var pieces := AT.PieceIn(k);
    if pieces != [] {
      assert pieces[1..] == [];
    }
    assert Contents([]) == [] && Texts([]) == [];
  }

  lemma {:induction false} StreamContentsJoin(c: Codec, a: seq<seq<byte>>, b: seq<seq<byte>>)
    ensures StreamContents(c, a + b) == StreamContents(c, a) + StreamContents(c, b)
  {
    hide ChoicesOn, Contents;
    if a == [] {
      assert a + b == b;
      PrependEmpty(StreamContents(c, b));
    } else {
      assert (a + b)[1..] == a[1..] + b;
      StreamContentsJoin(c, a[1..], b);
      Assoc(Contents(ChoicesOn(c, a[0])), StreamContents(c, a[1..]), StreamContents(c, b));
    }
  }

  lemma {:induction false} BlankContents(c: Codec, lines: seq<seq<byte>>)
    requires forall l :: l in lines ==> Read(c, l).Blank?
    ensures StreamContents(c, lines) == []
  {
    hide Read;
    if lines != [] {
      BlankContents(c, lines[1..]);
    }
  }

  lemma FrameContents(c: Codec, dec: nat -> string, k: AR.Chunk)
    requires ReadsBack(c, Frame(c, dec, k))
    ensures StreamContents(c, CutLines(Frame(c, dec, k).wire).lines) == Texts(AT.PieceIn(k))
  {
    hide Read, CutLines, Alike, ChunkJson, ChoiceJson, Data, Contents, ChoicesOf, AT.PieceIn, Texts;
    var lines := CutLines(Frame(c, dec, k).wire).lines;
    assert forall l :: l in lines[1..] ==> Read(c, l).Blank?;
    BlankContents(c, lines[1..]);
    if k.DoneMark? {
      NoContents();
      MarkSaysNothing(k);
    } else {
      var v := Read(c, lines[0]).value;
      ChunkContents(dec, k);
      SameChoices(c.depth, ChunkJson(dec, k), v);
      AppendEmpty(Contents(ChoicesOf(v)));
    }
  }

  lemma NoContents()
    ensures Contents([]) == []
  {
  }

  lemma MarkSaysNothing(k: AR.Chunk)
    requires k.DoneMark?
    ensures Texts(AT.PieceIn(k)) == []
  {
  }

  lemma SameChoices(depth: nat, v: Json, w: Json)
    requires Alike(depth, v, w)
    ensures Contents(ChoicesOf(v)) == Contents(ChoicesOf(w))
  {
    hide Contents, Blind;
    AlikeField(depth, v, w, "choices");
    TextIsBlind();
    if HasChoices(v) {
      AlikeContents(depth - 2, ChoicesOf(v), ChoicesOf(w));
    }
  }

  /** The normaliser is fed exactly the texts that the relay delivers. */
  lemma {:induction false} FramesContents(c: Codec, dec: nat -> string, chunks: seq<AR.Chunk>)
    requires forall o :: o in Frames(c, dec, chunks) ==> ReadsBack(c, o)
    ensures var cut := CutLines(Wire(Frames(c, dec, chunks)));
            cut.rest == [] && StreamContents(c, cut.lines) == Texts(AT.Received(chunks))
  {
    hide ReadsBack, Frame, Read, Texts, AT.PieceIn;
    if chunks == [] {
      assert CutLines([]) == Cut([], []);
      assert Texts([]) == [] by { NothingSaid(); }
    } else {
      var o, rest := Frame(c, dec, chunks[0]), Frames(c, dec, chunks[1..]);
      var outs := [o] + rest;
      assert outs[1..] == rest && o in outs && Frames(c, dec, chunks) == outs;
      FramesContents(c, dec, chunks[1..]);
      FrameContents(c, dec, chunks[0]);
      assert CutLines(o.wire).rest == [] by { Complete(c, o); }
      hide CutLines, StreamContents;
      CutMore(o.wire, Wire(rest));
      PrependEmpty(Wire(rest));
      StreamContentsJoin(c, CutLines(o.wire).lines, CutLines(Wire(rest)).lines);
      TextsJoin(AT.PieceIn(chunks[0]), AT.Received(chunks[1..]));
    }
  }

  lemma NothingSaid()
    ensures Texts([]) == []
  {
  }

  lemma Complete(c: Codec, o: Out)
    requires ReadsBack(c, o)
    ensures CutLines(o.wire).rest == []
  {
  }

  /**
   End to end: the content sent to the client is what one-shot extraction makes of the texts the relay
   delivers, put together, but for a tail misfiled at the end.
   */
  lemma PipelineContent(c: Codec, dec: nat -> string, d: AR.Decoder, m: AR.Meta, script: seq<Upstream>)
    requires Lawful(c) && Decimal(c, dec)
    ensures var ts := TagsOf(BuiltinPairs());
            var texts := Texts(AT.Received(AR.Rest(d, m, [], script)));
            var f := FeedAll(ts, texts);
            var scan := Count(InText, Scan(ts, InText, Concat(texts)));
            var content := ReadOuts(ContentAt, Remaining(c, ts, FreshNorm, Relayed(c, dec, d, m, script)));
            && (content == scan.text <==> !TailMisfiled(f))
            && scan.text == content + (if TailMisfiled(f) then f.pending else "")
  {
    hide Lawful, Frames, Wire, CutLines, Remaining, TagsOf, BuiltinPairs, AR.Rest, ReadsBack, FeedAll, Scan, Count,
      Concat, ReadOuts, StreamContents, TailMisfiled, NoAliases;
    var chunks := AR.Rest(d, m, [], script);
    FramesReadBack(c, dec, chunks);
    FramesContents(c, dec, chunks);
    StreamingIsOneShot(c, Relayed(c, dec, d, m, script));
  }
}
