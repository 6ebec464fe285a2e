/**
 The reasoning side of the normalising stream (`src/server/stream_normalize.rs`): what the upstream says
 in reasoning fields of its own is never dropped, whatever the splitter adds to it.
 */
module StreamReasoning {
  import opened Wrappers
  import opened Lines
  import opened Sequences
  import opened ThinkTags
  import opened ThinkTagTheorems
  import opened ThinkTagAccumulator
  import opened ThinkTagExtract
  import opened StreamNormalize
  import opened StreamTheorems

  /** The reasoning that feeding `s` adds once `cs` has been fed. */
  function Gained(ts: Tags, cs: seq<string>, s: string): string {
    if s == "" then "" else
      var f := FeedAll(ts, cs);
      Result(Drain(ts, f.sum.mode, f.pending + s)).reasoning
  }

  /** For each choice in turn: its own reasoning fields, then the reasoning split from its content. */
  function Woven(ts: Tags, pre: seq<string>, choices: seq<Json>): string {
    if choices == [] then ""
    else
      var front, last := choices[..|choices| - 1], choices[|choices| - 1];
      Woven(ts, pre, front) + (ChoiceAliases(last) + Gained(ts, pre + Contents(front), ContentAt(last)))
  }

  lemma ChoiceWoven(ts: Tags, cs: seq<string>, a: Acc, choice: Json)
    requires Tracks(ts, cs, a)
    ensures var r := RewriteChoice(ts, a, choice);
            ReasoningAt(r.choice) == ChoiceAliases(choice) + Gained(ts, cs, ContentAt(choice))
  {
    hide RewriteChoice, FeedAll, ContentAt, ReasoningAt, ChoiceAliases, Drain, Result, TextIn, ReasoningIn, Concat;
    ChoiceSplit(ts, a, choice);
    var s := ContentAt(choice);
    if s == "" {
      AppendEmpty(ChoiceAliases(choice));
    } else {
      ResultReads(Drain(ts, a.mode, a.pending + s));
    }
  }

  lemma {:induction false} ChoicesWoven(ts: Tags, pre: seq<string>, a: Acc, choices: seq<Json>)
    requires Tracks(ts, pre, a)
    ensures ReadAll(ReasoningAt, RewriteChoices(ts, a, choices).choices) == Woven(ts, pre, choices)
  {
    hide RewriteChoice, FeedAll, ContentAt, ReasoningAt, ChoiceAliases, Gained, Tracks, Contents;
    if choices != [] {
      var front, last := choices[..|choices| - 1], choices[|choices| - 1];
      ChoicesWoven(ts, pre, a, front);
      ChoicesRun(ts, pre, a, front);
      var mid := RewriteChoices(ts, a, front);
      var r := RewriteChoice(ts, mid.acc, last);
      ChoiceWoven(ts, pre + Contents(front), mid.acc, last);
      assert (mid.choices + [r.choice])[..|mid.choices|] == mid.choices;
    }
  }

  /** All choices the upstream lines carry, in order. */
  function AllChoices(c: Codec, lines: seq<seq<byte>>): seq<Json> {
    if lines == [] then [] else ChoicesOn(c, lines[0]) + AllChoices(c, lines[1..])
  }

  lemma {:induction false} ContentsJoin(a: seq<Json>, b: seq<Json>)
    ensures Contents(a + b) == Contents(a) + Contents(b)
    decreases |b|
  {
    hide ContentAt;
    if b == [] {
      AppendEmpty(a);
      AppendEmpty(Contents(a));
    } else {
      var k := |b| - 1;
      assert (a + b)[..|a| + k] == a + b[..k] && (a + b)[|a| + k] == b[k];
      ContentsJoin(a, b[..k]);
      Assoc(Contents(a), Contents(b[..k]), [ContentAt(b[k])]);
    }
  }

  lemma {:induction false} WovenJoin(ts: Tags, pre: seq<string>, a: seq<Json>, b: seq<Json>)
    ensures Woven(ts, pre, a + b) == Woven(ts, pre, a) + Woven(ts, pre + Contents(a), b)
    decreases |b|
  {
    hide ContentAt, ChoiceAliases, Gained, Contents;
    if b == [] {
      AppendEmpty(a);
      AppendEmpty(Woven(ts, pre, a));
    } else {
      var k := |b| - 1;
      assert (a + b)[..|a| + k] == a + b[..k] && (a + b)[|a| + k] == b[k];
      WovenJoin(ts, pre, a, b[..k]);
      ContentsJoin(a, b[..k]);
      Assoc(pre, Contents(a), Contents(b[..k]));
      var more := ChoiceAliases(b[k]) + Gained(ts, pre + Contents(a) + Contents(b[..k]), ContentAt(b[k]));
      Assoc(Woven(ts, pre, a), Woven(ts, pre + Contents(a), b[..k]), more);
    }
  }

  lemma LineWoven(c: Codec, ts: Tags, pre: seq<string>, n: Norm, line: seq<byte>)
    requires Tracks(ts, pre, n.acc)
    ensures var out := TransformLine(c, ts, n, line).out;
            ReadOuts(ReasoningAt, if out.Some? then [out.value] else []) == Woven(ts, pre, ChoicesOn(c, line))
  {
    hide FeedAll, Read, RewriteChoices, Contents, ContentAt, ReasoningAt, ChoiceAliases, ReadAll, Tracks, Woven;
    var choices := ChoicesOn(c, line);
    ChoicesRun(ts, pre, n.acc, choices);
    ChoicesWoven(ts, pre, n.acc, choices);
    NothingRewritten(ts, n.acc);
    NothingRead();
    var r := TransformLine(c, ts, n, line);
    if r.out.Some? {
      assert [r.out.value][1..] == [];
      AppendEmpty(ReadOut(ReasoningAt, r.out.value));
    }
  }

  lemma {:induction false} LinesWoven(c: Codec, ts: Tags, pre: seq<string>, n: Norm, lines: seq<seq<byte>>)
    requires Tracks(ts, pre, n.acc)
    ensures ReadOuts(ReasoningAt, TransformLines(c, ts, n, lines).outs) == Woven(ts, pre, AllChoices(c, lines))
    decreases |lines|
  {
    hide FeedAll, TransformLine, Contents, ContentAt, ReasoningAt, ChoiceAliases, ChoicesOn, Tracks, Gained;
    if lines != [] {
      hide TransformLines, ReadOuts, Woven;
      LineStep(c, ts, pre, n, lines[0]);
      LineWoven(c, ts, pre, n, lines[0]);
      var first := TransformLine(c, ts, n, lines[0]);
      LinesWoven(c, ts, pre + Contents(ChoicesOn(c, lines[0])), first.norm, lines[1..]);
      TransformCons(c, ts, n, lines);
      var rest := TransformLines(c, ts, first.norm, lines[1..]).outs;
      ReadOutsSplit(ReasoningAt, if first.out.Some? then [first.out.value] else [], rest);
      WovenJoin(ts, pre, ChoicesOn(c, lines[0]), AllChoices(c, lines[1..]));
    }
  }

  /** How much of it is the upstream's own, and how much the splitter's. */
  lemma {:induction false} WovenLength(ts: Tags, pre: seq<string>, choices: seq<Json>)
    ensures |FeedAll(ts, pre).sum.reasoning| + |Woven(ts, pre, choices)| ==
            |ReadAll(ChoiceAliases, choices)| + |FeedAll(ts, pre + Contents(choices)).sum.reasoning|
  {
    hide FeedAll, ContentAt, ChoiceAliases, Drain, Result;
    if choices == [] {
      AppendEmpty(pre);
    } else {
      var front, last := choices[..|choices| - 1], choices[|choices| - 1];
      WovenLength(ts, pre, front);
      var cs, s := pre + Contents(front), ContentAt(last);
      if s != "" {
        FeedOneMore(ts, cs, s);
        Assoc(pre, Contents(front), [s]);
      }
    }
  }

  lemma {:induction false} SameContents(c: Codec, lines: seq<seq<byte>>)
    ensures StreamContents(c, lines) == Contents(AllChoices(c, lines))
  {
    hide Contents, ChoicesOn;
    if lines == [] {
      NothingRewritten(Tags([], [], 0), FreshAcc);
    } else {
      SameContents(c, lines[1..]);
      ContentsJoin(ChoicesOn(c, lines[0]), AllChoices(c, lines[1..]));
    }
  }

  /**
   For every upstream byte stream: the reasoning sent is, choice by choice, the upstream's own reasoning
   fields and then the reasoning split from the content, and at the end the tail held back if it goes
   there. So all of the upstream's own reasoning and all of the scan's is in it, and nothing else but a
   misfiled tail.
   */
  lemma ReasoningNeverDropped(c: Codec, b: seq<byte>)
    ensures var ts := TagsOf(BuiltinPairs());
            var choices := AllChoices(c, AllLines(b));
            var f := FeedAll(ts, Contents(choices));
            var scan := Count(InText, Scan(ts, InText, Concat(Contents(choices))));
            var reasoning := ReadOuts(ReasoningAt, Remaining(c, ts, FreshNorm, b));
            var tail := if f.sum.mode.InReasoning? || f.sum.tags > 0 then f.pending else "";
            && reasoning == Woven(ts, [], choices) + tail
            && |reasoning| == |ReadAll(ChoiceAliases, choices)| + |scan.reasoning| +
                              (if TailMisfiled(f) then |f.pending| else 0)
  {
    hide FeedAll, TagsOf, BuiltinPairs, Scan, Count, AllLines, TransformLines, StreamContents, FlushEof, AllChoices,
      ContentAt, ReasoningAt, ReadOuts, ReadAll, ChoicesOf, TailChunk, Separable, FindNext, Concat, Woven, Contents;
    var ts := TagsOf(BuiltinPairs());
    var choices := AllChoices(c, AllLines(b));
    var r := TransformLines(c, ts, FreshNorm, AllLines(b));
    BuiltinSeparable();
    NothingFed(ts);
    LinesRun(c, ts, [], FreshNorm, AllLines(b));
    LinesWoven(c, ts, [], FreshNorm, AllLines(b));
    SameContents(c, AllLines(b));
    PrependEmpty(Contents(choices));
    ReadOutsSplit(ReasoningAt, r.outs, FlushEof(c, r.norm));
    FlushReads(c, r.norm, ReasoningAt);
    TailReads(r.norm.acc.pending);
    ChunkedFeedingIsScan(ts, Contents(choices));
    WovenLength(ts, [], choices);
  }
}
