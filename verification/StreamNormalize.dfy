/**
 The SSE normaliser of `src/server/stream_normalize.rs`, as functions on values: how one parsed
 chunk is rewritten, what one line becomes, and what a whole byte stream becomes.

 UTF-8 and JSON are foreign code: they enter as the functions of a `Codec`.
 */
module StreamNormalize {
  import opened Wrappers
  import opened Lines
  import opened ThinkTags
  import opened ThinkTagTheorems
  import opened ThinkTagAccumulator
  import opened ThinkTagExtract

  datatype Json =
    | Null
    | Bool(b: bool)
    | Number(repr: string)
    | Str(s: string)
    | Arr(items: seq<Json>)
    | Obj(fields: map<string, Json>)

  /** `numeral` says which texts are numbers, and `depth` how deep a parsed value may nest. */
  datatype Codec = Codec(
    decode: seq<byte> -> Option<string>,
    encode: string -> seq<byte>,
    parse: string -> Option<Json>,
    render: Json -> string,
    numeral: string -> bool,
    depth: nat)

  // ---- Rewriting one parsed chunk --------------------------------------------------------

  function Get(v: Json, key: string): Option<Json> {
    if v.Obj? && key in v.fields then Some(v.fields[key]) else None
  }

  function StrAt(m: map<string, Json>, key: string): string {
    if key in m && m[key].Str? then m[key].s else ""
  }

  /** The accumulator's mutable part, as a value. */
  datatype Acc = Acc(mode: Mode, pending: string, tags: nat)

  const FreshAcc := Acc(InText, "", 0)

  function AliasText(delta: map<string, Json>): string {
    StrAt(delta, "reasoning_content") + StrAt(delta, "reasoning")
    + StrAt(delta, "reasoning_text") + StrAt(delta, "thinking")
  }

  /** `fold_reasoning_aliases`: the aliases go, whatever their type; their text stays in one field. */
  function FoldAliases(delta: map<string, Json>): map<string, Json> {
    var m := delta - {"reasoning_content", "reasoning", "reasoning_text"};
    var m' := if StrAt(m, "thinking") != "" then m - {"thinking"} else m;
    if AliasText(delta) == "" then m' else m'["reasoning_content" := Str(AliasText(delta))]
  }

  function AppendReasoning(delta: map<string, Json>, extra: string): map<string, Json> {
    if extra == "" then delta else delta["reasoning_content" := Str(StrAt(delta, "reasoning_content") + extra)]
  }

  predicate IsPayload(v: Json) {
    match v
    case Null => false
    case Str(s) => s != ""
    case Arr(a) => a != []
    case Obj(m) => m != map[]
    case _ => true
  }

  predicate HasPayload(delta: map<string, Json>) {
    exists k :: k in delta && IsPayload(delta[k])
  }

  datatype DeltaOut = DeltaOut(acc: Acc, delta: map<string, Json>)

  function SplitContent(d: Drained, delta: map<string, Json>): map<string, Json> {
    var text := TextIn(d.events);
    var m := if text == "" then delta - {"content"} else delta["content" := Str(text)];
    AppendReasoning(m, Concat(ReasoningIn(d.events)))
  }

  function RewriteDelta(ts: Tags, a: Acc, delta: map<string, Json>): DeltaOut {
    var m := FoldAliases(delta);
    var content := StrAt(m, "content");
    if content == "" then DeltaOut(a, m)
    else
      var d := Drain(ts, a.mode, a.pending + content);
      DeltaOut(Acc(d.mode, d.pending, a.tags + d.tags), SplitContent(d, m))
  }

  datatype ChoiceOut = ChoiceOut(acc: Acc, choice: Json, emit: bool)

  function HasDelta(choice: Json): bool { Get(choice, "delta").Some? && Get(choice, "delta").value.Obj? }

  function DeltaOf(choice: Json): map<string, Json>
    requires HasDelta(choice)
  {
    choice.fields["delta"].fields
  }

  predicate Finished(choice: Json) {
    var f := Get(choice, "finish_reason");
    f.Some? && f.value.Str? && f.value.s != ""
  }

  function RewriteChoice(ts: Tags, a: Acc, choice: Json): ChoiceOut {
    if !HasDelta(choice) then ChoiceOut(a, choice, true)
    else
      var r := RewriteDelta(ts, a, DeltaOf(choice));
      ChoiceOut(r.acc, Obj(choice.fields["delta" := Obj(r.delta)]), Finished(choice) || HasPayload(r.delta))
  }

  datatype ChoicesOut = ChoicesOut(acc: Acc, choices: seq<Json>, emit: bool)

  /** One accumulator is threaded through all choices, in order. */
  function RewriteChoices(ts: Tags, a: Acc, choices: seq<Json>): ChoicesOut {
    if choices == [] then ChoicesOut(a, [], false)
    else
      var front := RewriteChoices(ts, a, choices[..|choices| - 1]);
      var last := RewriteChoice(ts, front.acc, choices[|choices| - 1]);
      ChoicesOut(last.acc, front.choices + [last.choice], front.emit || last.emit)
  }

  datatype ChunkOut = ChunkOut(acc: Acc, chunk: Json, emit: bool)

  function HasChoices(chunk: Json): bool {
    var c := Get(chunk, "choices");
    c.Some? && c.value.Arr? && c.value.items != []
  }

  function ChoicesOf(chunk: Json): seq<Json> { if HasChoices(chunk) then chunk.fields["choices"].items else [] }

  function RewriteChunk(ts: Tags, a: Acc, chunk: Json): ChunkOut {
    if !HasChoices(chunk) then ChunkOut(a, chunk, true)
    else
      var r := RewriteChoices(ts, a, ChoicesOf(chunk));
      ChunkOut(r.acc, Obj(chunk.fields["choices" := Arr(r.choices)]), Get(chunk, "usage").Some? || r.emit)
  }

  // ---- What one line becomes -------------------------------------------------------------

  /** Unicode White_Space, which `trim_start` strips. */
  predicate IsSpace(c: char) {
    var n := c as int;
    || 0x9 <= n <= 0xD || n == 0x20 || n == 0x85 || n == 0xA0 || n == 0x1680 || 0x2000 <= n <= 0x200A
    || n == 0x2028 || n == 0x2029 || n == 0x202F || n == 0x205F || n == 0x3000
  }

  function TrimStart(s: string): string {
    if s != "" && IsSpace(s[0]) then TrimStart(s[1..]) else s
  }

  function StripLast(s: string, c: char): string {
    if s != "" && s[|s| - 1] == c then s[..|s| - 1] else s
  }

  /** What `transform_line` reads on a line. */
  datatype Reading = Undecodable | Blank | Done | Chunk(payload: string, value: Json) | Other(line: string)

  function Classify(c: Codec, l: string): Reading {
    if l == "" then Blank
    else if !("data:" <= l) then Other(l)
    else
      var payload := TrimStart(l[5..]);
      if payload == "[DONE]" then Done
      else
        match c.parse(payload)
        case Some(v) => if v.Obj? then Chunk(payload, v) else Other(l)
        case None => Other(l)
  }

  function Read(c: Codec, line: seq<byte>): Reading {
    match c.decode(line)
    case None => Undecodable
    case Some(text) => Classify(c, StripLast(StripLast(text, '\n'), '\r'))
  }

  /** What is sent to the client for a line; `wire` is its bytes. */
  datatype Out = DoneOut(wire: seq<byte>) | ChunkFrame(value: Json, wire: seq<byte>) | Raw(wire: seq<byte>)

  function DoneFrame(c: Codec): Out { DoneOut(c.encode("data: [DONE]\n\n")) }

  function Data(c: Codec, v: Json): seq<byte> { c.encode("data: " + c.render(v) + "\n\n") }

  datatype Norm = Norm(acc: Acc, seenDone: bool)

  const FreshNorm := Norm(FreshAcc, false)

  datatype LineOut = LineOut(norm: Norm, out: Option<Out>)

  function TransformLine(c: Codec, ts: Tags, n: Norm, line: seq<byte>): LineOut {
    match Read(c, line)
    case Undecodable => LineOut(n, Some(Raw(line)))
    case Blank => LineOut(n, None)
    case Done => LineOut(n.(seenDone := true), Some(DoneFrame(c)))
    case Other(l) => LineOut(n, Some(Raw(c.encode(l + "\n\n"))))
    case Chunk(payload, v) =>
      var r := RewriteChunk(ts, n.acc, v);
      LineOut(n.(acc := r.acc),
              if !r.emit then None
              else if c.render(r.chunk) != payload then Some(ChunkFrame(r.chunk, Data(c, r.chunk)))
              else Some(ChunkFrame(r.chunk, line)))
  }

  // ---- What a byte stream becomes --------------------------------------------------------

  datatype LinesOut = LinesOut(norm: Norm, outs: seq<Out>)

  function TransformLines(c: Codec, ts: Tags, n: Norm, lines: seq<seq<byte>>): LinesOut
    decreases |lines|
  {
    if lines == [] then LinesOut(n, [])
    else
      var first := TransformLine(c, ts, n, lines[0]);
      var rest := TransformLines(c, ts, first.norm, lines[1..]);
      LinesOut(rest.norm, if first.out.Some? then [first.out.value] + rest.outs else rest.outs)
  }

  function AsReasoning(a: Acc): bool { a.mode.InReasoning? || a.tags > 0 }

  function TailChunk(field: string, s: string): Json {
    Obj(map["choices" := Arr([Obj(map["index" := Number("0"), "delta" := Obj(map[field := Str(s)])])])])
  }

  function TailField(a: Acc): string { if AsReasoning(a) then "reasoning_content" else "content" }

  /** `flush_eof`: the held tail on the side chosen, then `[DONE]` unless one was seen. */
  function FlushEof(c: Codec, n: Norm): seq<Out> {
    var tail := TailChunk(TailField(n.acc), n.acc.pending);
    (if n.acc.pending == "" then [] else [ChunkFrame(tail, Data(c, tail))]) +
      (if n.seenDone then [] else [DoneFrame(c)])
  }

  /** The lines of a finished stream; an unterminated last line is completed. */
  function AllLines(b: seq<byte>): seq<seq<byte>> {
    var cut := CutLines(b);
    if cut.rest == [] then cut.lines else cut.lines + [cut.rest + [LF]]
  }

  /** All that is still to be sent when `b` is still to be processed and the input has ended. */
  function Remaining(c: Codec, ts: Tags, n: Norm, b: seq<byte>): seq<Out> {
    var r := TransformLines(c, ts, n, AllLines(b));
    r.outs + FlushEof(c, r.norm)
  }

  function Wire(outs: seq<Out>): seq<byte> {
    if outs == [] then [] else outs[0].wire + Wire(outs[1..])
  }
}
