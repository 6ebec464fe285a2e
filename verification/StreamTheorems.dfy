/**
 The laws of the stream normaliser: what it sends does not depend on how the network cut the
 bytes, it closes with the right number of `[DONE]` markers, and the content it sends is the
 content one-shot extraction would have returned, with one exception that is stated exactly.
 */
module StreamTheorems {
  import opened Wrappers
  import opened Lines
  import opened Sequences
  import opened ThinkTags
  import opened ThinkTagTheorems
  import opened ThinkTagAccumulator
  import opened ThinkTagExtract
  import opened ThinkTagLimits
  import opened StreamNormalize

  // ---- Network chunking is irrelevant ----------------------------------------------------

  lemma {:induction false} TransformSplit(c: Codec, ts: Tags, n: Norm, a: seq<seq<byte>>, b: seq<seq<byte>>)
    ensures var r := TransformLines(c, ts, n, a);
            var s := TransformLines(c, ts, r.norm, b);
            TransformLines(c, ts, n, a + b) == LinesOut(s.norm, r.outs + s.outs)
    decreases |a|
  {
    hide TransformLine;
    if a == [] {
      assert a + b == b;
    } else {
      assert (a + b)[1..] == a[1..] + b;
      TransformSplit(c, ts, TransformLine(c, ts, n, a[0]).norm, a[1..], b);
    }
  }

  /** Taking the complete lines of the buffer first changes nothing of what is still to be sent. */
  lemma {:induction false} RemainingSplit(c: Codec, ts: Tags, n: Norm, a: seq<byte>, b: seq<byte>)
    ensures var cut := CutLines(a);
            var r := TransformLines(c, ts, n, cut.lines);
            Remaining(c, ts, n, a + b) == r.outs + Remaining(c, ts, r.norm, cut.rest + b)
  {
    hide TransformLines, CutLines, FlushEof;
    var cut := CutLines(a);
    var r := TransformLines(c, ts, n, cut.lines);
    CutMore(a, b);
    var more := AllLines(cut.rest + b);
    assert AllLines(a + b) == cut.lines + more;
    TransformSplit(c, ts, n, cut.lines, more);
    var s := TransformLines(c, ts, r.norm, more);
    assert (r.outs + s.outs) + FlushEof(c, s.norm) == r.outs + (s.outs + FlushEof(c, s.norm));
  }

  /** The stream as it runs: each network chunk is appended and its complete lines are processed. */
  function Pump(c: Codec, ts: Tags, n: Norm, buf: seq<byte>, chunks: seq<seq<byte>>): seq<Out>
    decreases |chunks|
  {
    if chunks == [] then Remaining(c, ts, n, buf)
    else
      var cut := CutLines(buf + chunks[0]);
      var r := TransformLines(c, ts, n, cut.lines);
      r.outs + Pump(c, ts, r.norm, cut.rest, chunks[1..])
  }

  /** What is sent depends only on the concatenated upstream bytes. */
  lemma {:induction false} NetworkChunkingIrrelevant(c: Codec, ts: Tags, n: Norm,
                                                     buf: seq<byte>, chunks: seq<seq<byte>>)
    ensures Pump(c, ts, n, buf, chunks) == Remaining(c, ts, n, buf + Join(chunks))
    decreases |chunks|
  {
    hide TransformLines, CutLines, Remaining;
    if chunks == [] {
      assert buf + [] == buf;
    } else {
      var cut := CutLines(buf + chunks[0]);
      var r := TransformLines(c, ts, n, cut.lines);
      NetworkChunkingIrrelevant(c, ts, r.norm, cut.rest, chunks[1..]);
      RemainingSplit(c, ts, n, buf + chunks[0], Join(chunks[1..]));
      assert buf + (chunks[0] + Join(chunks[1..])) == (buf + chunks[0]) + Join(chunks[1..]);
    }
  }

  // ---- [DONE] ----------------------------------------------------------------------------

  function CountDone(outs: seq<Out>): nat {
    if outs == [] then 0 else (if outs[0].DoneOut? then 1 else 0) + CountDone(outs[1..])
  }

  function DoneLines(c: Codec, lines: seq<seq<byte>>): nat {
    if lines == [] then 0 else (if Read(c, lines[0]).Done? then 1 else 0) + DoneLines(c, lines[1..])
  }

  lemma CountDoneSplit(a: seq<Out>, b: seq<Out>)
    ensures CountDone(a + b) == CountDone(a) + CountDone(b)
  {
    if a == [] {
      assert a + b == b;
    } else {
      assert (a + b)[1..] == a[1..] + b;
    }
  }

  lemma {:induction false} DoneTracked(c: Codec, ts: Tags, n: Norm, lines: seq<seq<byte>>)
    ensures var r := TransformLines(c, ts, n, lines);
            && CountDone(r.outs) == DoneLines(c, lines)
            && (r.norm.seenDone <==> n.seenDone || DoneLines(c, lines) > 0)
    decreases |lines|
  {
    hide Read, RewriteChunk;
    if lines != [] {
      var first := TransformLine(c, ts, n, lines[0]);
      DoneTracked(c, ts, first.norm, lines[1..]);
      var rest := TransformLines(c, ts, first.norm, lines[1..]);
      if first.out.Some? {
        assert ([first.out.value] + rest.outs)[1..] == rest.outs;
      }
    }
  }

  lemma DoneInFlush(c: Codec, n: Norm)
    ensures CountDone(FlushEof(c, n)) == if n.seenDone then 0 else 1
  {
    var tail := TailChunk(TailField(n.acc), n.acc.pending);
    CountDoneSplit(if n.acc.pending == "" then [] else [ChunkFrame(tail, Data(c, tail))],
                   if n.seenDone then [] else [DoneFrame(c)]);
  }

  /** A run over `k` upstream `[DONE]` lines sends `[DONE]` exactly max(1, k) times. */
  lemma DoneExactly(c: Codec, ts: Tags, b: seq<byte>)
    ensures var k := DoneLines(c, AllLines(b));
            CountDone(Remaining(c, ts, FreshNorm, b)) == if k == 0 then 1 else k
  {
    hide TransformLines, AllLines;
    var r := TransformLines(c, ts, FreshNorm, AllLines(b));
    DoneTracked(c, ts, FreshNorm, AllLines(b));
    CountDoneSplit(r.outs, FlushEof(c, r.norm));
    DoneInFlush(c, r.norm);
  }

  // ---- Content ---------------------------------------------------------------------------

  function ContentAt(choice: Json): string { if HasDelta(choice) then StrAt(DeltaOf(choice), "content") else "" }

  function ReasoningAt(choice: Json): string {
    if HasDelta(choice) then StrAt(DeltaOf(choice), "reasoning_content") else ""
  }

  function ChoiceAliases(choice: Json): string { if HasDelta(choice) then AliasText(DeltaOf(choice)) else "" }

  /** What is read on one field of every choice, in order. */
  function ReadAll(at: Json -> string, choices: seq<Json>): string {
    if choices == [] then "" else ReadAll(at, choices[..|choices| - 1]) + at(choices[|choices| - 1])
  }

  /** The non-empty contents of the choices: what is fed to the accumulator, in order. */
  function Contents(choices: seq<Json>): seq<string> {
    if choices == [] then []
    else
      var front := Contents(choices[..|choices| - 1]);
      var s := ContentAt(choices[|choices| - 1]);
      if s == "" then front else front + [s]
  }

  lemma FoldAliasesKeeps(delta: map<string, Json>)
    ensures var m := FoldAliases(delta);
            StrAt(m, "content") == StrAt(delta, "content") && StrAt(m, "reasoning_content") == AliasText(delta)
  {
  }

  /**
   One choice: its content goes through the accumulator; what comes out is the text, and the
   reasoning behind whatever the upstream's own reasoning fields said, which is never dropped.
   */
  lemma ChoiceSplit(ts: Tags, a: Acc, choice: Json)
    ensures var r := RewriteChoice(ts, a, choice);
            var d := Drain(ts, a.mode, a.pending + ContentAt(choice));
            && (ContentAt(choice) == "" ==>
                  r.acc == a && ContentAt(r.choice) == "" && ReasoningAt(r.choice) == ChoiceAliases(choice))
            && (ContentAt(choice) != "" ==>
                  && r.acc == Acc(d.mode, d.pending, a.tags + d.tags)
                  && ContentAt(r.choice) == TextIn(d.events)
                  && ReasoningAt(r.choice) == ChoiceAliases(choice) + Concat(ReasoningIn(d.events)))
            && (!r.emit ==> ContentAt(r.choice) == "" && ReasoningAt(r.choice) == "")
  {
    hide Drain, FoldAliases, AliasText, TextIn, ReasoningIn, Concat;
    if HasDelta(choice) {
      FoldAliasesKeeps(DeltaOf(choice));
    }
  }

  // ---- Streaming agrees with one-shot extraction -----------------------------------------

  /** The accumulator is in the state in which feeding `contents` leaves it. */
  ghost predicate Tracks(ts: Tags, contents: seq<string>, a: Acc) {
    var f := FeedAll(ts, contents);
    a == Acc(f.sum.mode, f.pending, f.sum.tags)
  }

  lemma FeedOneMore(ts: Tags, pre: seq<string>, s: string)
    ensures FeedAll(ts, pre + [s]) == Feed(ts, FeedAll(ts, pre), s)
    ensures Concat(pre + [s]) == Concat(pre) + s
  {
    assert (pre + [s])[..|pre|] == pre;
  }

  lemma ResultReads(d: Drained)
    ensures Result(d) == Tally(TextIn(d.events), Concat(ReasoningIn(d.events)), d.mode, d.tags)
  {
    var t := Tally("", "", d.mode, d.tags);
    CollectReads(d.events, t);
    CollectMode(d.events, t);
    CollectTags(d.events, t);
  }

  lemma {:induction false} ChoicesRun(ts: Tags, pre: seq<string>, a: Acc, choices: seq<Json>)
    requires Tracks(ts, pre, a)
    ensures var r := RewriteChoices(ts, a, choices);
            var f, g := FeedAll(ts, pre), FeedAll(ts, pre + Contents(choices));
            && Tracks(ts, pre + Contents(choices), r.acc)
            && g.sum.text == f.sum.text + ReadAll(ContentAt, r.choices)
            && (ReadAll(ChoiceAliases, choices) == "" ==>
               g.sum.reasoning == f.sum.reasoning + ReadAll(ReasoningAt, r.choices))
            && (!r.emit ==> ReadAll(ContentAt, r.choices) == "" && ReadAll(ReasoningAt, r.choices) == "")
    decreases |choices|
  {
    hide RewriteChoice, FeedAll, ContentAt, ReasoningAt, ChoiceAliases;
    if choices == [] {
      assert pre + [] == pre;
    } else {
      var front, last := choices[..|choices| - 1], choices[|choices| - 1];
      ChoicesRun(ts, pre, a, front);
      var mid := RewriteChoices(ts, a, front);
      var cs := pre + Contents(front);
      ChoiceStep(ts, cs, mid.acc, last);
      var r := RewriteChoice(ts, mid.acc, last);
      assert (mid.choices + [r.choice])[..|mid.choices|] == mid.choices;
      assert pre + (Contents(front) + [ContentAt(last)]) == cs + [ContentAt(last)];
      assert FeedAll(ts, pre).sum.text + ReadAll(ContentAt, mid.choices) + ContentAt(r.choice)
          == FeedAll(ts, pre).sum.text + (ReadAll(ContentAt, mid.choices) + ContentAt(r.choice));
      assert FeedAll(ts, pre).sum.reasoning + ReadAll(ReasoningAt, mid.choices) + ReasoningAt(r.choice)
          == FeedAll(ts, pre).sum.reasoning + (ReadAll(ReasoningAt, mid.choices) + ReasoningAt(r.choice));
    }
  }

  lemma ChoiceStep(ts: Tags, cs: seq<string>, a: Acc, choice: Json)
    requires Tracks(ts, cs, a)
    ensures var r := RewriteChoice(ts, a, choice);
            var s := ContentAt(choice);
            var f, g := FeedAll(ts, cs), FeedAll(ts, if s == "" then cs else cs + [s]);
            && Tracks(ts, if s == "" then cs else cs + [s], r.acc)
            && g.sum.text == f.sum.text + ContentAt(r.choice)
            && (ChoiceAliases(choice) == "" ==> g.sum.reasoning == f.sum.reasoning + ReasoningAt(r.choice))
            && (!r.emit ==> ContentAt(r.choice) == "" && ReasoningAt(r.choice) == "")
  {
    hide RewriteChoice, FeedAll, ContentAt, ReasoningAt, ChoiceAliases, Drain, Result, TextIn, ReasoningIn, Concat;
    var s := ContentAt(choice);
    ChoiceSplit(ts, a, choice);
    var f := FeedAll(ts, cs);
    if s == "" {
      assert f.sum.text + "" == f.sum.text && f.sum.reasoning + "" == f.sum.reasoning;
    } else {
      FeedOneMore(ts, cs, s);
      var d := Drain(ts, a.mode, a.pending + s);
      ResultReads(d);
      assert "" + Concat(ReasoningIn(d.events)) == Concat(ReasoningIn(d.events));
    }
  }

  // The same for lines and for whole streams.

  function ReadOut(at: Json -> string, out: Out): string {
    if out.ChunkFrame? then ReadAll(at, ChoicesOf(out.value)) else ""
  }

  function ReadOuts(at: Json -> string, outs: seq<Out>): string {
    if outs == [] then "" else ReadOut(at, outs[0]) + ReadOuts(at, outs[1..])
  }

  function ChoicesOn(c: Codec, line: seq<byte>): seq<Json> {
    if Read(c, line).Chunk? then ChoicesOf(Read(c, line).value) else []
  }

  /** All content strings the upstream lines carry, in order. */
  function StreamContents(c: Codec, lines: seq<seq<byte>>): seq<string> {
    if lines == [] then [] else Contents(ChoicesOn(c, lines[0])) + StreamContents(c, lines[1..])
  }

  /** The upstream sends no reasoning field of its own. */
  predicate NoAliases(c: Codec, lines: seq<seq<byte>>) {
    forall l :: l in lines ==> ReadAll(ChoiceAliases, ChoicesOn(c, l)) == ""
  }

  lemma LineStep(c: Codec, ts: Tags, pre: seq<string>, n: Norm, line: seq<byte>)
    requires Tracks(ts, pre, n.acc)
    ensures var r := TransformLine(c, ts, n, line);
            var cs := pre + Contents(ChoicesOn(c, line));
            var f, g := FeedAll(ts, pre), FeedAll(ts, cs);
            var outs := if r.out.Some? then [r.out.value] else [];
            && Tracks(ts, cs, r.norm.acc)
            && g.sum.text == f.sum.text + ReadOuts(ContentAt, outs)
            && (ReadAll(ChoiceAliases, ChoicesOn(c, line)) == "" ==>
               g.sum.reasoning == f.sum.reasoning + ReadOuts(ReasoningAt, outs))
  {
    hide FeedAll, Read, RewriteChoices, Contents, ContentAt, ReasoningAt, ChoiceAliases, ReadAll, Tracks;
    var choices := ChoicesOn(c, line);
    ChoicesRun(ts, pre, n.acc, choices);
    NothingRewritten(ts, n.acc);
    NothingRead();
    assert pre + [] == pre;
    var r := TransformLine(c, ts, n, line);
    if r.out.Some? {
      assert [r.out.value][1..] == [];
    }
  }

  lemma NothingRead()
    ensures ReadAll(ContentAt, []) == "" && ReadAll(ReasoningAt, []) == "" && ReadAll(ChoiceAliases, []) == ""
  {
  }

  lemma NothingRewritten(ts: Tags, a: Acc)
    ensures RewriteChoices(ts, a, []) == ChoicesOut(a, [], false) && Contents([]) == []
  {
  }

  lemma {:induction false} ReadOutsSplit(at: Json -> string, a: seq<Out>, b: seq<Out>)
    ensures ReadOuts(at, a + b) == ReadOuts(at, a) + ReadOuts(at, b)
  {
    hide ReadOut;
    if a == [] {
      assert a + b == b && "" + ReadOuts(at, b) == ReadOuts(at, b);
    } else {
      assert (a + b)[1..] == a[1..] + b;
      ReadOutsSplit(at, a[1..], b);
      Assoc(ReadOut(at, a[0]), ReadOuts(at, a[1..]), ReadOuts(at, b));
    }
  }

  lemma TransformCons(c: Codec, ts: Tags, n: Norm, lines: seq<seq<byte>>)
    requires lines != []
    ensures var first := TransformLine(c, ts, n, lines[0]);
            var rest := TransformLines(c, ts, first.norm, lines[1..]);
            TransformLines(c, ts, n, lines) ==
            LinesOut(rest.norm, (if first.out.Some? then [first.out.value] else []) + rest.outs)
  {
    hide TransformLine;
    var rest := TransformLines(c, ts, TransformLine(c, ts, n, lines[0]).norm, lines[1..]);
    assert [] + rest.outs == rest.outs;
  }

  lemma Chain(f: string, x: string, g: string, y: string, h: string)
    requires g == f + x && h == g + y
    ensures h == f + (x + y)
  {
  }

  lemma {:induction false} LinesRun(c: Codec, ts: Tags, pre: seq<string>, n: Norm, lines: seq<seq<byte>>)
    requires Tracks(ts, pre, n.acc)
    ensures var r := TransformLines(c, ts, n, lines);
            var cs := pre + StreamContents(c, lines);
            var f, g := FeedAll(ts, pre), FeedAll(ts, cs);
            && Tracks(ts, cs, r.norm.acc)
            && g.sum.text == f.sum.text + ReadOuts(ContentAt, r.outs)
            && (NoAliases(c, lines) ==> g.sum.reasoning == f.sum.reasoning + ReadOuts(ReasoningAt, r.outs))
    decreases |lines|
  {
    hide FeedAll, TransformLine, Contents, ContentAt, ReasoningAt, ChoiceAliases, ChoicesOn, Tracks;
    if lines == [] {
      assert pre + [] == pre;
    } else {
      hide TransformLines, ReadOuts;
      LineStep(c, ts, pre, n, lines[0]);
      var first := TransformLine(c, ts, n, lines[0]);
      var mid := pre + Contents(ChoicesOn(c, lines[0]));
      LinesRun(c, ts, mid, first.norm, lines[1..]);
      var cs := pre + StreamContents(c, lines);
      assert cs == mid + StreamContents(c, lines[1..]);
      TransformCons(c, ts, n, lines);
      var rest := TransformLines(c, ts, first.norm, lines[1..]).outs;
      var outs := if first.out.Some? then [first.out.value] else [];
      ReadOutsSplit(ContentAt, outs, rest);
      ReadOutsSplit(ReasoningAt, outs, rest);
      var f, g, h := FeedAll(ts, pre).sum, FeedAll(ts, mid).sum, FeedAll(ts, cs).sum;
      Chain(f.text, ReadOuts(ContentAt, outs), g.text, ReadOuts(ContentAt, rest), h.text);
      if NoAliases(c, lines) {
        Chain(f.reasoning, ReadOuts(ReasoningAt, outs), g.reasoning, ReadOuts(ReasoningAt, rest), h.reasoning);
      }
    }
  }

  lemma FlushReads(c: Codec, n: Norm, at: Json -> string)
    ensures ReadOuts(at, FlushEof(c, n)) ==
            if n.acc.pending == "" then ""
            else ReadAll(at, ChoicesOf(TailChunk(TailField(n.acc), n.acc.pending)))
  {
    hide ReadAll, ChoicesOf, TailChunk;
    var tail := TailChunk(TailField(n.acc), n.acc.pending);
    var frame := ChunkFrame(tail, Data(c, tail));
    var done := if n.seenDone then [] else [DoneFrame(c)];
    ReadOutsSplit(at, if n.acc.pending == "" then [] else [frame], done);
    assert ReadOuts(at, [frame]) == ReadOut(at, frame) + "";
  }

  lemma TailReads(s: string)
    ensures var a, b := TailChunk("content", s), TailChunk("reasoning_content", s);
            && ReadAll(ContentAt, ChoicesOf(a)) == s && ReadAll(ReasoningAt, ChoicesOf(a)) == ""
            && ReadAll(ContentAt, ChoicesOf(b)) == "" && ReadAll(ReasoningAt, ChoicesOf(b)) == s
  {
    var a, b := ChoicesOf(TailChunk("content", s)), ChoicesOf(TailChunk("reasoning_content", s));
    assert a[..0] == [] && b[..0] == [];
  }

  /** The stream ended in text, after some tag, with a tail held back. */
  predicate TailMisfiled(f: Fed) {
    f.sum.mode.InText? && f.sum.tags > 0 && f.pending != ""
  }

  /**
   Which contents end that way: those whose scan ends in text, behind some tag, with the first character
   of a tag standing in the last text within the window held back.
   */
  lemma MisfiledExactly(ts: Tags, contents: seq<string>)
    requires Separable(ts)
    ensures var ps := Scan(ts, InText, Concat(contents));
            var t := Count(InText, ps);
            TailMisfiled(FeedAll(ts, contents)) <==>
            t.mode.InText? && t.tags > 0 && exists q: nat :: Holdable(ts, LastRun(ps), q)
  {
    hide FeedAll, Drain, Scan, Count, Concat, LastRun, Holdable, Separable;
    var x := Concat(contents);
    var d := Drain(ts, InText, x);
    ChunkingIrrelevant(ts, contents);
    DrainIsScan(ts, InText, x);
    var t, u := Tally("", "", d.mode, d.tags), AddFront(d.mode, d.pending, Tally("", "", d.mode, d.tags));
    CollectMode(d.events, t);
    CollectMode(d.events, u);
    CollectTags(d.events, t);
    CollectTags(d.events, u);
    HeldFromLastStart(ts, InText, x, 0);
  }

  /**
   For every upstream byte stream, the content sent, including what is flushed at the end, is the
   content that one-shot extraction of the concatenated contents returns, if and only if the stream
   does not end in text mode with a tag behind it and a tail held back. In that one case just the
   held tail is missing from the content, and it is sent as reasoning.
   */
  lemma StreamingIsOneShot(c: Codec, b: seq<byte>)
    ensures var ts := TagsOf(BuiltinPairs());
            var contents := StreamContents(c, AllLines(b));
            var f := FeedAll(ts, contents);
            var scan := Count(InText, Scan(ts, InText, Concat(contents)));
            var outs := Remaining(c, ts, FreshNorm, b);
            var content, reasoning := ReadOuts(ContentAt, outs), ReadOuts(ReasoningAt, outs);
            && (content == scan.text <==> !TailMisfiled(f))
            && scan.text == content + (if TailMisfiled(f) then f.pending else "")
            && (NoAliases(c, AllLines(b)) ==>
                  reasoning == scan.reasoning + (if TailMisfiled(f) then f.pending else ""))
  {
    hide FeedAll, TagsOf, BuiltinPairs, Scan, Count, AllLines, TransformLines, StreamContents, NoAliases, FlushEof,
      ContentAt, ReasoningAt, ReadOuts, ReadAll, ChoicesOf, TailChunk, Separable, FindNext, Concat;
    var ts := TagsOf(BuiltinPairs());
    var contents := StreamContents(c, AllLines(b));
    var r := TransformLines(c, ts, FreshNorm, AllLines(b));
    BuiltinSeparable();
    NothingFed(ts);
    LinesRun(c, ts, [], FreshNorm, AllLines(b));
    assert [] + contents == contents;
    ReadOutsSplit(ContentAt, r.outs, FlushEof(c, r.norm));
    ReadOutsSplit(ReasoningAt, r.outs, FlushEof(c, r.norm));
    FlushReads(c, r.norm, ContentAt);
    FlushReads(c, r.norm, ReasoningAt);
    TailReads(r.norm.acc.pending);
    ChunkedFeedingIsScan(ts, contents);
  }

  lemma NothingFed(ts: Tags)
    ensures FeedAll(ts, []) == Fresh && Tracks(ts, [], FreshAcc)
  {
  }
}
