/**
 From the frames of `StreamNormalize` to the bytes a client receives: with a lawful codec, what a client
 that reads the sent bytes line by line finds in them.
 */
module WireTheorems {
  import opened Wrappers
  import opened Lines
  import opened Sequences
  import opened ThinkTags
  import opened ThinkTagTheorems
  import opened ThinkTagExtract
  import opened StreamNormalize
  import opened StreamTheorems
  import NS = NormalizingStream

  // ---- What UTF-8 and a JSON library guarantee -------------------------------------------

  /** A value that a JSON text can denote: its numbers are numbers and it nests at most `depth` deep. */
  ghost predicate WellFormed(numeral: string -> bool, depth: nat, v: Json) {
    match v
    case Number(repr) => numeral(repr)
    case Arr(items) => depth > 0 && forall w :: w in items ==> WellFormed(numeral, depth - 1, w)
    case Obj(fields) => depth > 0 && forall k :: k in fields ==> WellFormed(numeral, depth - 1, fields[k])
    case _ => true
  }

  ghost predicate FitsAt(c: Codec, depth: nat, v: Json) { WellFormed(c.numeral, depth, v) }

  ghost predicate Fits(c: Codec, v: Json) { FitsAt(c, c.depth, v) }

  ghost predicate LawfulText(c: Codec) {
    && (forall s :: c.decode(c.encode(s)) == Some(s))
    && (forall b :: c.decode(b).Some? ==> c.encode(c.decode(b).value) == b)
    && (forall s: string, t: string {:trigger c.encode(s + t)} :: c.encode(s + t) == c.encode(s) + c.encode(t))
    && c.encode("\n") == [LF]
    && (forall s :: '\n' !in s ==> LF !in c.encode(s))
  }

  /** Equal but for the values of numbers, which a JSON library need not read back to the last digit. */
  ghost predicate Alike(depth: nat, v: Json, w: Json) {
    match v
    case Number(_) => w.Number?
    case Arr(items) =>
      && depth > 0 && w.Arr? && |w.items| == |items|
      && forall i :: 0 <= i < |items| ==> Alike(depth - 1, items[i], w.items[i])
    case Obj(fields) =>
      && depth > 0 && w.Obj? && w.fields.Keys == fields.Keys
      && forall k :: k in fields ==> Alike(depth - 1, fields[k], w.fields[k])
    case _ => w == v
  }

  /** Parsing undoes rendering up to numbers. Four levels are what the splitter's own chunk takes. */
  ghost predicate LawfulJson(c: Codec) {
    && c.depth >= 4 && c.numeral("0")
    && (forall s :: c.parse(s).Some? ==> Fits(c, c.parse(s).value))
    && (forall v :: Fits(c, v) ==> c.parse(c.render(v)).Some? && Alike(c.depth, v, c.parse(c.render(v)).value))
    && (forall v :: Fits(c, v) ==> '\n' !in c.render(v) && '\r' !in c.render(v))
    && (forall v: Json :: Fits(c, v) && v.Obj? ==> c.render(v) != "" && c.render(v)[0] == '{')
  }

  ghost predicate Lawful(c: Codec) { LawfulText(c) && LawfulJson(c) }

  // ---- Rewriting keeps values well-formed ------------------------------------------------

  ghost predicate AllFit(c: Codec, depth: nat, fields: map<string, Json>) {
    forall k :: k in fields ==> FitsAt(c, depth, fields[k])
  }

  ghost predicate EachFits(c: Codec, depth: nat, items: seq<Json>) {
    forall v :: v in items ==> FitsAt(c, depth, v)
  }

  lemma ObjectFits(c: Codec, depth: nat, fields: map<string, Json>)
    ensures FitsAt(c, depth, Obj(fields)) <==> depth > 0 && AllFit(c, depth - 1, fields)
  {
  }

  lemma ArrayFits(c: Codec, depth: nat, items: seq<Json>)
    ensures FitsAt(c, depth, Arr(items)) <==> depth > 0 && EachFits(c, depth - 1, items)
  {
  }

  lemma TextFits(c: Codec, depth: nat, s: string)
    ensures FitsAt(c, depth, Str(s))
  {
  }

  lemma TextFieldFits(c: Codec, depth: nat, fields: map<string, Json>, key: string, s: string)
    requires AllFit(c, depth, fields)
    ensures AllFit(c, depth, fields[key := Str(s)])
  {
    hide FitsAt;
    TextFits(c, depth, s);
  }

  lemma AliasesFit(c: Codec, depth: nat, delta: map<string, Json>)
    requires AllFit(c, depth, delta)
    ensures AllFit(c, depth, FoldAliases(delta))
  {
    hide FitsAt;
    TextFits(c, depth, AliasText(delta));
  }

  lemma DeltaFits(c: Codec, depth: nat, ts: Tags, a: Acc, delta: map<string, Json>)
    requires AllFit(c, depth, delta)
    ensures AllFit(c, depth, RewriteDelta(ts, a, delta).delta)
  {
    hide FitsAt, Drain, FoldAliases, TextIn, ReasoningIn, Concat;
    var m := FoldAliases(delta);
    AliasesFit(c, depth, delta);
    var content := StrAt(m, "content");
    if content != "" {
      var d := Drain(ts, a.mode, a.pending + content);
      TextFieldFits(c, depth, m, "content", TextIn(d.events));
      var split := if TextIn(d.events) == "" then m - {"content"} else m["content" := Str(TextIn(d.events))];
      TextFieldFits(c, depth, split, "reasoning_content",
        StrAt(split, "reasoning_content") + Concat(ReasoningIn(d.events)));
    }
  }

  lemma ChoiceFits(c: Codec, depth: nat, ts: Tags, a: Acc, choice: Json)
    requires FitsAt(c, depth, choice)
    ensures FitsAt(c, depth, RewriteChoice(ts, a, choice).choice)
  {
    hide FitsAt, RewriteDelta;
    if HasDelta(choice) {
      var delta := DeltaOf(choice);
      ObjectFits(c, depth, choice.fields);
      ObjectFits(c, depth - 1, delta);
      DeltaFits(c, depth - 2, ts, a, delta);
      var r := RewriteDelta(ts, a, delta).delta;
      ObjectFits(c, depth - 1, r);
      ObjectFits(c, depth, choice.fields["delta" := Obj(r)]);
    }
  }

  lemma {:induction false} ChoicesFit(c: Codec, depth: nat, ts: Tags, a: Acc, choices: seq<Json>)
    requires EachFits(c, depth, choices)
    ensures EachFits(c, depth, RewriteChoices(ts, a, choices).choices)
  {
    hide RewriteChoice, FitsAt;
    if choices != [] {
      var front, last := choices[..|choices| - 1], choices[|choices| - 1];
      ChoicesFit(c, depth, ts, a, front);
      ChoiceFits(c, depth, ts, RewriteChoices(ts, a, front).acc, last);
    }
  }

  lemma ChunkFits(c: Codec, ts: Tags, a: Acc, chunk: Json)
    requires FitsAt(c, c.depth, chunk)
    ensures FitsAt(c, c.depth, RewriteChunk(ts, a, chunk).chunk)
  {
    hide FitsAt, RewriteChoices;
    if HasChoices(chunk) {
      var items := chunk.fields["choices"].items;
      ObjectFits(c, c.depth, chunk.fields);
      ArrayFits(c, c.depth - 1, items);
      ChoicesFit(c, c.depth - 2, ts, a, items);
      var r := RewriteChoices(ts, a, items).choices;
      ArrayFits(c, c.depth - 1, r);
      ObjectFits(c, c.depth, chunk.fields["choices" := Arr(r)]);
    }
  }

  lemma TailFits(c: Codec, field: string, s: string)
    requires LawfulJson(c)
    ensures Fits(c, TailChunk(field, s))
  {
    hide LawfulJson;
    assert c.depth >= 4 && c.numeral("0") by { Roomy(c); }
    var delta := map[field := Str(s)];
    TextFits(c, c.depth - 4, s);
    ObjectFits(c, c.depth - 3, delta);
    var choice := map["index" := Number("0"), "delta" := Obj(delta)];
    assert FitsAt(c, c.depth - 3, Number("0"));
    ObjectFits(c, c.depth - 2, choice);
    ArrayFits(c, c.depth - 1, [Obj(choice)]);
    ObjectFits(c, c.depth, map["choices" := Arr([Obj(choice)])]);
  }

  lemma Roomy(c: Codec)
    requires LawfulJson(c)
    ensures c.depth >= 4 && c.numeral("0")
  {
  }

  // ---- Lines -----------------------------------------------------------------------------

  /** A line of text, as bytes and read back. */
  lemma TextLine(c: Codec, x: string)
    requires Lawful(c) && '\n' !in x
    ensures var line := c.encode(x + "\n");
            && IsLine(line) && c.decode(line) == Some(x + "\n")
            && CutLines(c.encode(x + "\n\n")) == Cut([line, [LF]], [])
  {
    var line := c.encode(x + "\n");
    assert line == c.encode(x) + [LF];
    assert x + "\n\n" == (x + "\n") + "\n";
    NS.OneLine(line);
    NS.OneLine([LF]);
    CutMore(line, [LF]);
    assert [line] + [[LF]] == [line, [LF]];
    assert [] + [LF] == [LF];
  }

  lemma BlankLine(c: Codec)
    requires Lawful(c)
    ensures Read(c, [LF]) == Blank
  {
    assert c.decode(c.encode("\n")) == Some("\n");
  }

  /** A line that decodes is text without a newline, then a newline. */
  lemma {:induction false} DecodedLine(c: Codec, line: seq<byte>)
    requires Lawful(c) && IsLine(line) && c.decode(line).Some?
    ensures var text := c.decode(line).value;
            text != "" && text[|text| - 1] == '\n' && '\n' !in text[..|text| - 1]
  {
    var text := c.decode(line).value;
    assert c.encode(text) == line;
    assert LF in line;
    assert '\n' in text;
    var i :| 0 <= i < |text| && text[i] == '\n';
    assert forall j :: 0 <= j < |text| && text[j] == '\n' ==> j == |text| - 1 by {
      forall j | 0 <= j < |text| && text[j] == '\n' ensures j == |text| - 1 {
        NewlineIsLast(c, text, j);
      }
    }
  }

  lemma {:induction false} NewlineIsLast(c: Codec, text: string, j: nat)
    requires Lawful(c) && j < |text| && text[j] == '\n' && IsLine(c.encode(text))
    ensures j == |text| - 1
  {
    var a, b := text[..j], text[j + 1..];
    assert text == (a + "\n") + b;
    var line := c.encode(text);
    assert line == (c.encode(a) + [LF]) + c.encode(b);
    assert line[|c.encode(a)|] == LF;
    assert c.encode(b) == [];
    assert c.encode("" + "") == c.encode("") + c.encode("") && "" + "" == "";
    assert c.encode("") == [];
    assert c.decode(c.encode(b)) == Some(b) && c.decode(c.encode("")) == Some("");
  }

  /** The first line of what is sent. */
  function First(wire: seq<byte>): seq<byte> {
    var lines := CutLines(wire).lines;
    if lines == [] then [] else lines[0]
  }

  /** The bytes of a frame are lines; the first reads as the frame if it is one, the others are blank. */
  ghost predicate ReadsBack(c: Codec, o: Out) {
    var cut := CutLines(o.wire);
    && cut.rest == [] && cut.lines != []
    && (match o
        case DoneOut(_) => Read(c, cut.lines[0]).Done?
        case ChunkFrame(v, _) => Read(c, cut.lines[0]).Chunk? && Alike(c.depth, v, Read(c, cut.lines[0]).value)
        case Raw(_) => true)
    && (forall i :: 1 <= i < |cut.lines| ==> Read(c, cut.lines[i]).Blank?)
  }

  lemma StripNewline(x: string)
    ensures StripLast(x + "\n", '\n') == x
  {
    assert (x + "\n")[..|x|] == x;
  }

  /** A data line with one space before its payload reads as that payload. */
  lemma DataLine(c: Codec, line: seq<byte>, s: string)
    requires c.decode(line) == Some("data: " + s + "\n")
    requires s != "" && !IsSpace(s[0]) && '\r' !in s
    ensures Read(c, line) ==
            if s == "[DONE]" then Done
            else if c.parse(s).Some? && c.parse(s).value.Obj? then Chunk(s, c.parse(s).value)
            else Other("data: " + s)
  {
    var x := "data: " + s;
    StripNewline(x);
    assert x[|x| - 1] == s[|s| - 1] && s[|s| - 1] in s;
    assert "data:" == x[..5] && x[5..] == " " + s && (" " + s)[1..] == s;
    assert TrimStart(s) == s;
    assert TrimStart(" " + s) == s;
  }

  lemma Rendered(c: Codec, v: Json)
    requires LawfulJson(c) && v.Obj? && Fits(c, v)
    ensures var s := c.render(v);
            && s != "" && s[0] == '{' && '\n' !in s && '\r' !in s
            && c.parse(s).Some? && c.parse(s).value.Obj? && Alike(c.depth, v, c.parse(s).value)
  {
    hide FitsAt;
  }

  lemma DataReadsBack(c: Codec, v: Json)
    requires Lawful(c) && v.Obj? && Fits(c, v)
    ensures ReadsBack(c, ChunkFrame(v, Data(c, v)))
  {
    hide Read, CutLines, Alike, FitsAt, LawfulText, LawfulJson;
    Rendered(c, v);
    var s := c.render(v);
    var x := "data: " + s;
    TextLine(c, x);
    BlankLine(c);
    assert x + "\n\n" == "data: " + s + "\n\n";
    assert "[DONE]"[0] == '[';
    DataLine(c, c.encode(x + "\n"), s);
  }

  lemma DoneReadsBack(c: Codec)
    requires Lawful(c)
    ensures ReadsBack(c, DoneFrame(c))
  {
    hide Read, CutLines, LawfulText, LawfulJson;
    var x := "data: " + "[DONE]";
    TextLine(c, x);
    BlankLine(c);
    assert x + "\n\n" == "data: [DONE]\n\n";
    DataLine(c, c.encode(x + "\n"), "[DONE]");
  }

  /**
   How a client reads what becomes of a line that is passed on: the program strips one carriage return
   and so does the client, so the text is read without a second one.
   */
  function Reread(c: Codec, line: seq<byte>): Reading {
    var r := Read(c, line);
    if r.Other? then Classify(c, StripLast(r.line, '\r')) else r
  }

  lemma OtherReadsBack(c: Codec, line: seq<byte>, l: string)
    requires Lawful(c) && IsLine(line) && Read(c, line) == Other(l)
    ensures var o := Raw(c.encode(l + "\n\n")); ReadsBack(c, o) && Read(c, First(o.wire)) == Reread(c, line)
  {
    hide Classify, CutLines, LawfulJson;
    OtherIsText(c, line, l);
    TextLine(c, l);
    BlankLine(c);
    StripNewline(l);
  }

  lemma OtherIsText(c: Codec, line: seq<byte>, l: string)
    requires Lawful(c) && IsLine(line) && Read(c, line) == Other(l)
    ensures '\n' !in l
  {
    hide LawfulJson;
    DecodedLine(c, line);
  }

  /** What is sent for a line reads back; what is passed on as it is reads as `Reread` says. */
  lemma LineReadsBack(c: Codec, ts: Tags, n: Norm, line: seq<byte>)
    requires Lawful(c) && IsLine(line)
    ensures var out := TransformLine(c, ts, n, line).out;
            && (out.Some? ==> ReadsBack(c, out.value))
            && (out.Some? && out.value.Raw? ==> Read(c, First(out.value.wire)) == Reread(c, line))
  {
    hide Read, RewriteChunk, CutLines, Classify, LawfulText, LawfulJson, ReadsBack, Fits;
    match Read(c, line)
    case Undecodable => LineIsFrame(c, line);
    case Blank =>
    case Done => DoneReadsBack(c);
    case Other(l) => OtherReadsBack(c, line, l);
    case Chunk(payload, v) =>
      ParsedFits(c, line);
      RewrittenFits(c, ts, n.acc, v);
      RewrittenReadsBack(c, line, RewriteChunk(ts, n.acc, v).chunk);
  }

  lemma LineIsFrame(c: Codec, line: seq<byte>)
    requires IsLine(line)
    ensures ReadsBack(c, Raw(line)) && First(line) == line
  {
    hide Read, CutLines;
    NS.OneLine(line);
  }

  lemma ParsedFits(c: Codec, line: seq<byte>)
    requires LawfulJson(c) && Read(c, line).Chunk?
    ensures Read(c, line).value.Obj? && Fits(c, Read(c, line).value)
  {
    hide Read, FitsAt;
    ChunkParsed(c, line);
  }

  lemma RewrittenFits(c: Codec, ts: Tags, a: Acc, chunk: Json)
    requires chunk.Obj? && Fits(c, chunk)
    ensures RewriteChunk(ts, a, chunk).chunk.Obj? && Fits(c, RewriteChunk(ts, a, chunk).chunk)
  {
    hide RewriteChoices, FitsAt;
    ChunkFits(c, ts, a, chunk);
  }

  /** A chunk that renders as the payload it came from is sent as the line it came on. */
  lemma RewrittenReadsBack(c: Codec, line: seq<byte>, chunk: Json)
    requires Lawful(c) && IsLine(line) && Read(c, line).Chunk? && chunk.Obj? && Fits(c, chunk)
    ensures ReadsBack(c, ChunkFrame(chunk, Data(c, chunk)))
    ensures c.render(chunk) == Read(c, line).payload ==> ReadsBack(c, ChunkFrame(chunk, line))
  {
    hide Read, CutLines, Alike, FitsAt, LawfulText, LawfulJson;
    NS.OneLine(line);
    ChunkParsed(c, line);
    Rendered(c, chunk);
    DataReadsBack(c, chunk);
  }

  lemma ChunkParsed(c: Codec, line: seq<byte>)
    requires Read(c, line).Chunk?
    ensures c.parse(Read(c, line).payload) == Some(Read(c, line).value) && Read(c, line).value.Obj?
  {
  }

  // ---- Whole streams ---------------------------------------------------------------------

  lemma {:induction false} LinesReadBack(c: Codec, ts: Tags, n: Norm, lines: seq<seq<byte>>)
    requires Lawful(c) && forall l :: l in lines ==> IsLine(l)
    ensures forall o :: o in TransformLines(c, ts, n, lines).outs ==> ReadsBack(c, o)
    decreases |lines|
  {
    hide Lawful, ReadsBack, TransformLine;
    if lines != [] {
      LineReadsBack(c, ts, n, lines[0]);
      LinesReadBack(c, ts, TransformLine(c, ts, n, lines[0]).norm, lines[1..]);
    }
  }

  lemma AllLinesAreLines(b: seq<byte>)
    ensures forall l :: l in AllLines(b) ==> IsLine(l)
  {
    CutKeeps(b);
  }

  lemma RemainingReadsBack(c: Codec, ts: Tags, b: seq<byte>)
    requires Lawful(c)
    ensures forall o :: o in Remaining(c, ts, FreshNorm, b) ==> ReadsBack(c, o)
  {
    hide LawfulText, LawfulJson, ReadsBack, TransformLines, AllLines, Fits;
    AllLinesAreLines(b);
    LinesReadBack(c, ts, FreshNorm, AllLines(b));
    var n := TransformLines(c, ts, FreshNorm, AllLines(b)).norm;
    DoneReadsBack(c);
    TailFits(c, "content", n.acc.pending);
    TailFits(c, "reasoning_content", n.acc.pending);
    DataReadsBack(c, TailChunk("content", n.acc.pending));
    DataReadsBack(c, TailChunk("reasoning_content", n.acc.pending));
  }

  /** What a client reads on one field, line by line. */
  function ClientReads(c: Codec, at: Json -> string, lines: seq<seq<byte>>): string {
    if lines == [] then "" else ReadAll(at, ChoicesOn(c, lines[0])) + ClientReads(c, at, lines[1..])
  }

  lemma {:induction false} ClientSplit(c: Codec, at: Json -> string, a: seq<seq<byte>>, b: seq<seq<byte>>)
    ensures ClientReads(c, at, a + b) == ClientReads(c, at, a) + ClientReads(c, at, b)
    ensures DoneLines(c, a + b) == DoneLines(c, a) + DoneLines(c, b)
  {
    hide Read, ReadAll, ChoicesOn;
    if a == [] {
      assert a + b == b;
      assert "" + ClientReads(c, at, b) == ClientReads(c, at, b);
    } else {
      assert (a + b)[1..] == a[1..] + b;
      ClientSplit(c, at, a[1..], b);
      Assoc(ReadAll(at, ChoicesOn(c, a[0])), ClientReads(c, at, a[1..]), ClientReads(c, at, b));
    }
  }

  lemma BlanksSayNothing(c: Codec, at: Json -> string, lines: seq<seq<byte>>)
    requires forall l :: l in lines ==> Read(c, l).Blank?
    ensures ClientReads(c, at, lines) == "" && DoneLines(c, lines) == 0
  {
    hide Read;
  }

  /** What a client reads in a frame. */
  function Seen(c: Codec, at: Json -> string, o: Out): string {
    if o.Raw? then ReadAll(at, ChoicesOn(c, First(o.wire))) else ReadOut(at, o)
  }

  function SeenAll(c: Codec, at: Json -> string, outs: seq<Out>): string {
    if outs == [] then "" else Seen(c, at, outs[0]) + SeenAll(c, at, outs[1..])
  }

  predicate SeenAsMark(c: Codec, o: Out) { o.DoneOut? || (o.Raw? && Read(c, First(o.wire)).Done?) }

  function MarksSeen(c: Codec, outs: seq<Out>): nat {
    if outs == [] then 0 else (if SeenAsMark(c, outs[0]) then 1 else 0) + MarksSeen(c, outs[1..])
  }

  /** `at` does not look at numbers. */
  ghost predicate Blind(at: Json -> string) {
    forall depth: nat, v, w :: Alike(depth, v, w) ==> at(v) == at(w)
  }

  lemma AlikeField(depth: nat, v: Json, w: Json, key: string)
    requires Alike(depth, v, w)
    ensures Get(v, key).Some? <==> Get(w, key).Some?
    ensures Get(v, key).Some? ==> depth > 0 && Alike(depth - 1, Get(v, key).value, Get(w, key).value)
  {
  }

  /** The two fields that carry text are such fields. */
  lemma TextIsBlind()
    ensures Blind(ContentAt) && Blind(ReasoningAt)
  {
    forall depth: nat, v, w | Alike(depth, v, w)
      ensures ContentAt(v) == ContentAt(w) && ReasoningAt(v) == ReasoningAt(w)
    {
      AlikeField(depth, v, w, "delta");
      if Get(v, "delta").Some? {
        var a, b := Get(v, "delta").value, Get(w, "delta").value;
        AlikeField(depth - 1, a, b, "content");
        AlikeField(depth - 1, a, b, "reasoning_content");
      }
    }
  }

  lemma {:induction false} AlikeItems(at: Json -> string, depth: nat, a: seq<Json>, b: seq<Json>)
    requires Blind(at) && |a| == |b| && forall i :: 0 <= i < |a| ==> Alike(depth, a[i], b[i])
    ensures ReadAll(at, a) == ReadAll(at, b)
  {
    hide Alike;
    if a != [] {
      AlikeItems(at, depth, a[..|a| - 1], b[..|b| - 1]);
    }
  }

  lemma AlikeChoices(at: Json -> string, depth: nat, v: Json, w: Json)
    requires Blind(at) && Alike(depth, v, w)
    ensures ReadAll(at, ChoicesOf(v)) == ReadAll(at, ChoicesOf(w))
  {
    hide ReadAll, Blind;
    AlikeField(depth, v, w, "choices");
    if HasChoices(v) {
      AlikeItems(at, depth - 2, ChoicesOf(v), ChoicesOf(w));
    }
  }

  lemma FrameRead(c: Codec, at: Json -> string, o: Out)
    requires ReadsBack(c, o) && Blind(at)
    ensures var cut := CutLines(o.wire);
            && cut.rest == [] && ClientReads(c, at, cut.lines) == Seen(c, at, o)
            && DoneLines(c, cut.lines) == MarksSeen(c, [o])
  {
    hide Read, CutLines, ReadAll, ChoicesOf, Alike, Blind;
    var lines := CutLines(o.wire).lines;
    if o.ChunkFrame? {
      AlikeChoices(at, c.depth, o.value, Read(c, lines[0]).value);
    }
    assert forall l :: l in lines[1..] ==> Read(c, l).Blank?;
    BlanksSayNothing(c, at, lines[1..]);
    NoChoices(at);
    assert [o][1..] == [];
    AppendEmpty(ReadAll(at, ChoicesOn(c, lines[0])));
  }

  lemma NoChoices(at: Json -> string)
    ensures ReadAll(at, []) == ""
  {
  }

  /** Reading the bytes of frames that read back is reading the frames. */
  lemma {:induction false} WireRead(c: Codec, at: Json -> string, outs: seq<Out>)
    requires Blind(at) && forall o :: o in outs ==> ReadsBack(c, o)
    ensures var cut := CutLines(Wire(outs));
            && cut.rest == [] && ClientReads(c, at, cut.lines) == SeenAll(c, at, outs)
            && DoneLines(c, cut.lines) == MarksSeen(c, outs)
    decreases |outs|
  {
    hide ReadsBack, Seen, Read, Blind;
    if outs == [] {
      assert CutLines([]) == Cut([], []);
    } else {
      hide CutLines;
      FrameRead(c, at, outs[0]);
      WireRead(c, at, outs[1..]);
      CutMore(outs[0].wire, Wire(outs[1..]));
      assert [] + Wire(outs[1..]) == Wire(outs[1..]);
      ClientSplit(c, at, CutLines(outs[0].wire).lines, CutLines(Wire(outs[1..])).lines);
      assert [outs[0]][1..] == [];
    }
  }

  // ---- Lines passed on that a client takes for something else ----------------------------

  /** What a client reads, beyond the normalised frames, because a line was passed on. */
  function Stray(c: Codec, at: Json -> string, line: seq<byte>): string {
    if Read(c, line).Other? && Reread(c, line).Chunk? then ReadAll(at, ChoicesOf(Reread(c, line).value)) else ""
  }

  predicate StrayMark(c: Codec, line: seq<byte>) { Read(c, line).Other? && Reread(c, line).Done? }

  function StrayLength(c: Codec, at: Json -> string, lines: seq<seq<byte>>): nat {
    if lines == [] then 0 else |Stray(c, at, lines[0])| + StrayLength(c, at, lines[1..])
  }

  function StrayMarks(c: Codec, lines: seq<seq<byte>>): nat {
    if lines == [] then 0 else (if StrayMark(c, lines[0]) then 1 else 0) + StrayMarks(c, lines[1..])
  }

  lemma LineSeen(c: Codec, ts: Tags, n: Norm, at: Json -> string, line: seq<byte>)
    requires Lawful(c) && IsLine(line)
    ensures var out := TransformLine(c, ts, n, line).out;
            && (out.None? ==> Stray(c, at, line) == "" && !StrayMark(c, line))
            && (out.Some? ==>
                  && |Seen(c, at, out.value)| == |ReadOut(at, out.value)| + |Stray(c, at, line)|
                  && MarksSeen(c, [out.value]) == CountDone([out.value]) + if StrayMark(c, line) then 1 else 0)
  {
    hide Read, RewriteChunk, Lawful, ReadsBack, ReadAll, Classify, First, ChoicesOf;
    LineReadsBack(c, ts, n, line);
    NoChoices(at);
    var out := TransformLine(c, ts, n, line).out;
    if out.Some? {
      assert [out.value][1..] == [];
    }
  }

  lemma {:induction false} LinesSeen(c: Codec, ts: Tags, n: Norm, at: Json -> string, lines: seq<seq<byte>>)
    requires Lawful(c) && forall l :: l in lines ==> IsLine(l)
    ensures var outs := TransformLines(c, ts, n, lines).outs;
            && |SeenAll(c, at, outs)| == |ReadOuts(at, outs)| + StrayLength(c, at, lines)
            && MarksSeen(c, outs) == CountDone(outs) + StrayMarks(c, lines)
    decreases |lines|
  {
    hide Lawful, TransformLine, Seen, ReadOut, Read, Stray, StrayMark, First;
    if lines != [] {
      var first := TransformLine(c, ts, n, lines[0]);
      LineSeen(c, ts, n, at, lines[0]);
      LinesSeen(c, ts, first.norm, at, lines[1..]);
      var rest := TransformLines(c, ts, first.norm, lines[1..]).outs;
      if first.out.Some? {
        assert ([first.out.value] + rest)[1..] == rest && [first.out.value][1..] == [];
      }
    }
  }

  lemma {:induction false} MarksJoin(c: Codec, a: seq<Out>, b: seq<Out>)
    ensures MarksSeen(c, a + b) == MarksSeen(c, a) + MarksSeen(c, b)
  {
    hide SeenAsMark;
    if a == [] {
      assert a + b == b;
    } else {
      assert (a + b)[1..] == a[1..] + b;
      MarksJoin(c, a[1..], b);
    }
  }

  /** Frames that are not passed-on lines are read as what they are. */
  lemma {:induction false} SeenAsSent(c: Codec, at: Json -> string, outs: seq<Out>)
    requires forall o :: o in outs ==> !o.Raw?
    ensures SeenAll(c, at, outs) == ReadOuts(at, outs) && MarksSeen(c, outs) == CountDone(outs)
  {
    hide ReadOut, Read, First;
    if outs != [] {
      SeenAsSent(c, at, outs[1..]);
    }
  }

  lemma {:induction false} RemainingSeen(c: Codec, ts: Tags, at: Json -> string, b: seq<byte>)
    requires Lawful(c)
    ensures var outs := Remaining(c, ts, FreshNorm, b);
            && |SeenAll(c, at, outs)| == |ReadOuts(at, outs)| + StrayLength(c, at, AllLines(b))
            && MarksSeen(c, outs) == CountDone(outs) + StrayMarks(c, AllLines(b))
  {
    hide Lawful, AllLines, TransformLines, SeenAll, ReadOuts, MarksSeen, CountDone, StrayLength, StrayMarks;
    AllLinesAreLines(b);
    var r := TransformLines(c, ts, FreshNorm, AllLines(b));
    var tail := FlushEof(c, r.norm);
    LinesSeen(c, ts, FreshNorm, at, AllLines(b));
    SeenJoin(c, at, r.outs, tail);
    MarksJoin(c, r.outs, tail);
    SeenAsSent(c, at, tail);
    ReadOutsSplit(at, r.outs, tail);
    CountDoneSplit(r.outs, tail);
  }

  lemma {:induction false} NothingStray(c: Codec, at: Json -> string, lines: seq<seq<byte>>)
    ensures StrayLength(c, at, lines) == 0 <==> forall l :: l in lines ==> Stray(c, at, l) == ""
    ensures StrayMarks(c, lines) == 0 <==> forall l :: l in lines ==> !StrayMark(c, l)
  {
    hide Stray, StrayMark;
    if lines != [] {
      NothingStray(c, at, lines[1..]);
      assert lines == [lines[0]] + lines[1..];
    }
  }

  /** Without stray texts the frames are read as they were sent. */
  lemma {:induction false} SeenWithoutStray(c: Codec, ts: Tags, n: Norm, at: Json -> string, lines: seq<seq<byte>>)
    requires Lawful(c) && forall l :: l in lines ==> IsLine(l)
    requires StrayLength(c, at, lines) == 0
    ensures var outs := TransformLines(c, ts, n, lines).outs; SeenAll(c, at, outs) == ReadOuts(at, outs)
    decreases |lines|
  {
    hide Lawful, TransformLine, Read, First;
    if lines != [] {
      var first := TransformLine(c, ts, n, lines[0]);
      SeenWithoutStray(c, ts, first.norm, at, lines[1..]);
      assert first.out.Some? ==> Seen(c, at, first.out.value) == ReadOut(at, first.out.value) by {
        hide Seen, ReadOut, Stray;
        LineSeen(c, ts, n, at, lines[0]);
        if first.out.Some? && first.out.value.Raw? {
          RawReadsNothing(at, first.out.value);
        } else if first.out.Some? {
          OthersSeenAsSent(c, at, first.out.value);
        }
      }
      var rest := TransformLines(c, ts, first.norm, lines[1..]).outs;
      if first.out.Some? {
        assert ([first.out.value] + rest)[1..] == rest;
      }
    }
  }

  lemma RawReadsNothing(at: Json -> string, o: Out)
    requires o.Raw?
    ensures ReadOut(at, o) == ""
  {
  }

  lemma OthersSeenAsSent(c: Codec, at: Json -> string, o: Out)
    requires !o.Raw?
    ensures Seen(c, at, o) == ReadOut(at, o)
  {
  }

  lemma {:induction false} SeenJoin(c: Codec, at: Json -> string, a: seq<Out>, b: seq<Out>)
    ensures SeenAll(c, at, a + b) == SeenAll(c, at, a) + SeenAll(c, at, b)
  {
    hide Seen;
    if a == [] {
      assert a + b == b && "" + SeenAll(c, at, b) == SeenAll(c, at, b);
    } else {
      assert (a + b)[1..] == a[1..] + b;
      SeenJoin(c, at, a[1..], b);
      Assoc(Seen(c, at, a[0]), SeenAll(c, at, a[1..]), SeenAll(c, at, b));
    }
  }

  /**
   End to end, on bytes: whatever the upstream sends and however the network cuts it, a client that
   reads the bytes of the normalised stream finds max(1, k) `[DONE]` lines for k upstream ones, plus one
   for each passed-on line that it takes for one. On any field that is not a number it reads what the
   frames say if and only if no passed-on line is taken for a chunk that says something there.
   */
  lemma ClientSees(c: Codec, ts: Tags, at: Json -> string, b: seq<byte>)
    requires Lawful(c) && Blind(at)
    ensures var outs := Remaining(c, ts, FreshNorm, b);
            var received := CutLines(Wire(outs));
            var k := DoneLines(c, AllLines(b));
            && received.rest == []
            && ClientReads(c, at, received.lines) == SeenAll(c, at, outs)
            && (ClientReads(c, at, received.lines) == ReadOuts(at, outs) <==>
                  forall l :: l in AllLines(b) ==> Stray(c, at, l) == "")
            && DoneLines(c, received.lines) == (if k == 0 then 1 else k) + StrayMarks(c, AllLines(b))
            && (DoneLines(c, received.lines) == (if k == 0 then 1 else k) <==>
                  forall l :: l in AllLines(b) ==> !StrayMark(c, l))
  {
    hide Lawful, Remaining, ReadsBack, CutLines, AllLines, Wire, ClientReads, ReadOuts, SeenAll, Stray, StrayMark,
      MarksSeen, StrayLength, StrayMarks, Blind;
    var outs := Remaining(c, ts, FreshNorm, b);
    RemainingReadsBack(c, ts, b);
    WireRead(c, at, outs);
    DoneExactly(c, ts, b);
    RemainingSeen(c, ts, at, b);
    NothingStray(c, at, AllLines(b));
    if StrayLength(c, at, AllLines(b)) == 0 {
      SeenClean(c, ts, at, b);
    }
  }

  lemma SeenClean(c: Codec, ts: Tags, at: Json -> string, b: seq<byte>)
    requires Lawful(c) && StrayLength(c, at, AllLines(b)) == 0
    ensures var outs := Remaining(c, ts, FreshNorm, b); SeenAll(c, at, outs) == ReadOuts(at, outs)
  {
    hide Lawful, AllLines, TransformLines, SeenAll, ReadOuts, StrayLength;
    AllLinesAreLines(b);
    var r := TransformLines(c, ts, FreshNorm, AllLines(b));
    var tail := FlushEof(c, r.norm);
    SeenWithoutStray(c, ts, FreshNorm, at, AllLines(b));
    SeenAsSent(c, at, tail);
    SeenJoin(c, at, r.outs, tail);
    ReadOutsSplit(at, r.outs, tail);
  }

  /** Such a line: with two carriage returns, `[DONE]` is passed on as text and read as an end mark. */
  lemma DoubleCrIsStray(c: Codec)
    requires Lawful(c) && !(c.parse("[DONE]\r").Some? && c.parse("[DONE]\r").value.Obj?)
    ensures var line := c.encode("data: [DONE]\r\r\n");
            IsLine(line) && StrayMark(c, line) && DoneLines(c, [line]) == 0
  {
    hide LawfulText, LawfulJson, Classify, Read, CutLines;
    var l := "data: [DONE]\r";
    var text := (l + "\r") + "\n";
    assert text == "data: [DONE]\r\r\n";
    var line := c.encode(text);
    TextLine(c, l + "\r");
    assert Read(c, line) == Classify(c, l) by { StrippedTwice(c, line, l); }
    assert Classify(c, l) == Other(l) && Classify(c, StripLast(l, '\r')) == Done by { DoneAndDoubleCr(c); }
    assert [line][1..] == [];
  }

  lemma StrippedTwice(c: Codec, line: seq<byte>, l: string)
    requires c.decode(line) == Some((l + "\r") + "\n")
    ensures Read(c, line) == Classify(c, l)
  {
    hide Classify;
    StripNewline(l + "\r");
    assert (l + "\r")[..|l|] == l;
  }

  lemma DoneAndDoubleCr(c: Codec)
    requires !(c.parse("[DONE]\r").Some? && c.parse("[DONE]\r").value.Obj?)
    ensures var l := "data: [DONE]\r"; Classify(c, l) == Other(l) && Classify(c, StripLast(l, '\r')) == Done
  {
    hide TrimStart;
    var l, d := "data: [DONE]\r", "data: [DONE]";
    Trimmed("[DONE]\r");
    Trimmed("[DONE]");
    assert l[5..] == " " + "[DONE]\r" && d[5..] == " " + "[DONE]";
    assert l[..|l| - 1] == d;
  }

  lemma Trimmed(s: string)
    requires s != "" && !IsSpace(s[0])
    ensures TrimStart(" " + s) == s
  {
    assert (" " + s)[1..] == s;
    assert TrimStart(s) == s;
  }
}
