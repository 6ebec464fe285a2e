/**
 Which upstream lines the normalising stream (`src/server/stream_normalize.rs`) passes on and which it
 keeps to itself, read off the JSON fields, and which fields it leaves alone.
 */
module StreamFields {
  import opened Wrappers
  import opened Lines
  import opened Sequences
  import opened ThinkTags
  import opened ThinkTagTheorems
  import opened ThinkTagExtract
  import opened StreamNormalize
  import opened StreamTheorems

  /** The fields in which upstreams send reasoning of their own. */
  const ALIASES: set<string> := {"reasoning_content", "reasoning", "reasoning_text", "thinking"}

  predicate Empty(v: Json) { v == Null || v == Str("") || v == Arr([]) || v == Obj(map[]) }

  /** The choice carries a finish reason. */
  predicate Ends(choice: Json) {
    choice.Obj? && "finish_reason" in choice.fields &&
    choice.fields["finish_reason"].Str? && choice.fields["finish_reason"].s != ""
  }

  /** Feeding `s` after `cs` brings nothing out on either side. */
  predicate NothingComes(ts: Tags, cs: seq<string>, s: string) {
    var f, g := FeedAll(ts, cs).sum, FeedAll(ts, cs + [s]).sum;
    g.text == f.text && g.reasoning == f.reasoning
  }

  /** Nothing in the delta is worth sending, once `cs` has been fed. */
  predicate QuietDelta(ts: Tags, cs: seq<string>, delta: map<string, Json>) {
    && (forall k :: k in delta && k in ALIASES && delta[k].Str? ==> delta[k].s == "")
    && ("thinking" in delta ==> Empty(delta["thinking"]))
    && ("content" in delta ==>
          var v := delta["content"];
          if v.Str? && v.s != "" then NothingComes(ts, cs, v.s) else Empty(v))
    && (forall k :: k in delta && k !in ALIASES && k != "content" ==> Empty(delta[k]))
  }

  predicate Quiet(ts: Tags, cs: seq<string>, choice: Json) {
    HasDelta(choice) && !Ends(choice) && QuietDelta(ts, cs, DeltaOf(choice))
  }

  ghost predicate AllQuiet(ts: Tags, pre: seq<string>, choices: seq<Json>) {
    forall i :: 0 <= i < |choices| ==> Quiet(ts, pre + Contents(choices[..i]), choices[i])
  }

  // ---- When something is sent ------------------------------------------------------------

  lemma PayloadIs(v: Json)
    ensures IsPayload(v) <==> !Empty(v)
  {
  }

  lemma ComesOut(ts: Tags, cs: seq<string>, a: Acc, s: string)
    requires Tracks(ts, cs, a)
    ensures var d := Drain(ts, a.mode, a.pending + s);
            NothingComes(ts, cs, s) <==> TextIn(d.events) == "" && Concat(ReasoningIn(d.events)) == ""
  {
    hide FeedAll, Drain, Result, TextIn, ReasoningIn, Concat;
    var d := Drain(ts, a.mode, a.pending + s);
    FeedOneMore(ts, cs, s);
    ResultReads(d);
    var f := FeedAll(ts, cs).sum;
    SameIffNothing(f.text, TextIn(d.events));
    SameIffNothing(f.reasoning, Concat(ReasoningIn(d.events)));
  }

  lemma SameIffNothing(a: string, b: string)
    ensures a + b == a <==> b == ""
  {
    if b == "" {
      AppendEmpty(a);
    } else {
      assert |a + b| > |a|;
    }
  }

  /** What folding the aliases leaves, field by field. */
  lemma FoldedField(delta: map<string, Json>, k: string)
    ensures var m := FoldAliases(delta);
            && (k !in ALIASES ==> (k in m <==> k in delta) && (k in delta ==> m[k] == delta[k]))
            && (k == "thinking" ==> (k in m <==> k in delta && StrAt(delta, k) == "") && (k in m ==> m[k] == delta[k]))
            && (k == "reasoning_content" ==>
                  (k in m <==> AliasText(delta) != "") && (k in m ==> m[k] == Str(AliasText(delta))))
            && (k == "reasoning" || k == "reasoning_text" ==> k !in m)
  {
    hide AliasText;
  }

  lemma NoAliasText(delta: map<string, Json>)
    ensures AliasText(delta) == "" <==> forall k :: k in delta && k in ALIASES && delta[k].Str? ==> delta[k].s == ""
  {
    var a, b, c, d := StrAt(delta, "reasoning_content"), StrAt(delta, "reasoning"), StrAt(delta, "reasoning_text"),
                      StrAt(delta, "thinking");
    assert |AliasText(delta)| == |a| + |b| + |c| + |d|;
    assert AliasText(delta) == "" <==> a == "" && b == "" && c == "" && d == "";
  }

  /** Folding alone leaves something to send exactly in these cases; content is looked at separately. */
  lemma FoldedPayload(delta: map<string, Json>)
    ensures var m := FoldAliases(delta);
            (forall k :: k in m && k != "content" ==> Empty(m[k])) <==>
            && AliasText(delta) == ""
            && ("thinking" in delta ==> Empty(delta["thinking"]))
            && (forall k :: k in delta && k !in ALIASES && k != "content" ==> Empty(delta[k]))
  {
    hide FoldAliases, AliasText;
    var m := FoldAliases(delta);
    forall k ensures (k !in ALIASES ==> (k in m <==> k in delta) && (k in delta ==> m[k] == delta[k])) {
      FoldedField(delta, k);
    }
    FoldedField(delta, "thinking");
    FoldedField(delta, "reasoning_content");
    FoldedField(delta, "reasoning");
    FoldedField(delta, "reasoning_text");
    if AliasText(delta) == "" {
      NoAliasText(delta);
    }
  }

  lemma DeltaQuiet(ts: Tags, cs: seq<string>, a: Acc, delta: map<string, Json>)
    requires Tracks(ts, cs, a)
    ensures HasPayload(RewriteDelta(ts, a, delta).delta) <==> !QuietDelta(ts, cs, delta)
  {
    hide FoldAliases, AliasText, Tracks, NothingComes, Drain, TextIn, ReasoningIn, Concat;
    var m := FoldAliases(delta);
    var r := RewriteDelta(ts, a, delta).delta;
    FoldedPayload(delta);
    NoAliasText(delta);
    FoldedField(delta, "content");
    FoldedField(delta, "reasoning_content");
    forall v ensures IsPayload(v) <==> !Empty(v) { PayloadIs(v); }
    hide IsPayload;
    var s := StrAt(m, "content");
    if s == "" {
      assert r == m;
    } else {
      ComesOut(ts, cs, a, s);
      SplitPayload(Drain(ts, a.mode, a.pending + s), m);
    }
  }

  /** After splitting, there is something to send if something came out or was there already. */
  lemma SplitPayload(d: Drained, m: map<string, Json>)
    requires "reasoning_content" in m ==> m["reasoning_content"].Str?
    ensures HasPayload(SplitContent(d, m)) <==>
            || TextIn(d.events) != "" || Concat(ReasoningIn(d.events)) != ""
            || exists k :: k in m && k != "content" && !Empty(m[k])
  {
    hide TextIn, ReasoningIn, Concat;
    forall v ensures IsPayload(v) <==> !Empty(v) { PayloadIs(v); }
    hide IsPayload;
    var text, more := TextIn(d.events), Concat(ReasoningIn(d.events));
    var r := SplitContent(d, m);
    assert forall k :: k != "content" && k != "reasoning_content" ==> (k in r <==> k in m) && (k in r ==> r[k] == m[k]);
    assert "content" in r <==> text != "";
    assert text != "" ==> r["content"] == Str(text);
    assert more == "" ==> ("reasoning_content" in r <==> "reasoning_content" in m);
    if more != "" {
      var own := StrAt(m, "reasoning_content");
      assert r["reasoning_content"] == Str(own + more) && own + more != "";
    }
  }

  lemma ChoiceQuiet(ts: Tags, cs: seq<string>, a: Acc, choice: Json)
    requires Tracks(ts, cs, a)
    ensures RewriteChoice(ts, a, choice).emit <==> !Quiet(ts, cs, choice)
  {
    hide RewriteDelta, Tracks, QuietDelta, HasPayload;
    if HasDelta(choice) {
      DeltaQuiet(ts, cs, a, DeltaOf(choice));
    }
  }

  lemma QuietSplit(ts: Tags, pre: seq<string>, choices: seq<Json>)
    requires choices != []
    ensures var n := |choices| - 1;
            AllQuiet(ts, pre, choices) <==>
            AllQuiet(ts, pre, choices[..n]) && Quiet(ts, pre + Contents(choices[..n]), choices[n])
  {
    hide Quiet, Contents;
    var n := |choices| - 1;
    assert forall i :: 0 <= i < n ==> choices[..n][..i] == choices[..i] && choices[..n][i] == choices[i];
  }

  lemma {:induction false} ChoicesQuiet(ts: Tags, pre: seq<string>, a: Acc, choices: seq<Json>)
    requires Tracks(ts, pre, a)
    ensures RewriteChoices(ts, a, choices).emit <==> !AllQuiet(ts, pre, choices)
  {
    if choices != [] {
      hide RewriteChoice, Tracks, AllQuiet, Contents;
      var front, last := choices[..|choices| - 1], choices[|choices| - 1];
      ChoicesQuiet(ts, pre, a, front);
      ChoicesRun(ts, pre, a, front);
      ChoiceQuiet(ts, pre + Contents(front), RewriteChoices(ts, a, front).acc, last);
      QuietSplit(ts, pre, choices);
    }
  }

  /**
   At any point of any stream, a line yields nothing if and only if it is blank, or a chunk without usage
   all of whose choices have a delta, no finish reason and nothing in the delta worth sending.
   */
  lemma SilentExactly(c: Codec, ts: Tags, pre: seq<string>, n: Norm, line: seq<byte>)
    requires Tracks(ts, pre, n.acc)
    ensures TransformLine(c, ts, n, line).out.None? <==>
            || Read(c, line).Blank?
            || (&& Read(c, line).Chunk?
                && var v := Read(c, line).value;
                   Get(v, "usage").None? && HasChoices(v) && AllQuiet(ts, pre, ChoicesOf(v)))
  {
    hide Read, RewriteChoices, Tracks, AllQuiet;
    if Read(c, line).Chunk? {
      ChoicesQuiet(ts, pre, n.acc, ChoicesOf(Read(c, line).value));
    }
  }

  // ---- What is left alone ----------------------------------------------------------------

  /** `w` is `v` but for the content and reasoning of its delta. */
  ghost predicate SameButText(v: Json, w: Json) {
    && (forall k :: k != "delta" ==> Get(w, k) == Get(v, k))
    && (HasDelta(v) <==> HasDelta(w)) && (!HasDelta(v) ==> w == v)
    && (HasDelta(v) ==>
          forall k :: k !in ALIASES && k != "content" ==> Get(Obj(DeltaOf(w)), k) == Get(Obj(DeltaOf(v)), k))
  }

  lemma ChoiceKeeps(ts: Tags, a: Acc, choice: Json)
    ensures SameButText(choice, RewriteChoice(ts, a, choice).choice)
  {
    hide FoldAliases, Drain, TextIn, ReasoningIn, Concat;
    if HasDelta(choice) {
      forall k | k !in ALIASES ensures (k in FoldAliases(DeltaOf(choice)) <==> k in DeltaOf(choice)) &&
                                       (k in DeltaOf(choice) ==> FoldAliases(DeltaOf(choice))[k] == DeltaOf(choice)[k])
      {
        FoldedField(DeltaOf(choice), k);
      }
    }
  }

  lemma {:induction false} ChoicesKeep(ts: Tags, a: Acc, choices: seq<Json>)
    ensures var r := RewriteChoices(ts, a, choices).choices;
            |r| == |choices| && forall i :: 0 <= i < |r| ==> SameButText(choices[i], r[i])
  {
    hide RewriteChoice, SameButText;
    if choices != [] {
      var front, last := choices[..|choices| - 1], choices[|choices| - 1];
      ChoicesKeep(ts, a, front);
      ChoiceKeeps(ts, RewriteChoices(ts, a, front).acc, last);
    }
  }

  /**
   A chunk that is sent keeps all its fields but the choices, and these keep, one by one, all but the
   content and reasoning of their deltas: finish reasons, roles, tool calls, usage.
   */
  lemma ChunkKeeps(c: Codec, ts: Tags, n: Norm, line: seq<byte>)
    requires Read(c, line).Chunk? && TransformLine(c, ts, n, line).out.Some?
    ensures var v, out := Read(c, line).value, TransformLine(c, ts, n, line).out.value;
            && out.ChunkFrame?
            && (forall k :: k != "choices" ==> Get(out.value, k) == Get(v, k))
            && |ChoicesOf(out.value)| == |ChoicesOf(v)|
            && forall i :: 0 <= i < |ChoicesOf(v)| ==> SameButText(ChoicesOf(v)[i], ChoicesOf(out.value)[i])
  {
    hide Read, RewriteChoices, SameButText;
    var v := Read(c, line).value;
    ChoicesKeep(ts, n.acc, ChoicesOf(v));
  }

  /** A line that is no chunk goes out as it came: unchanged if undecodable, else its text and a blank line. */
  lemma OthersGoOut(c: Codec, ts: Tags, n: Norm, line: seq<byte>)
    ensures var r := TransformLine(c, ts, n, line);
            && (c.decode(line).None? ==> r.out == Some(Raw(line)) && r.norm == n)
            && (Read(c, line).Other? ==> r.out == Some(Raw(c.encode(Read(c, line).line + "\n\n"))) && r.norm == n)
  {
    hide Classify, RewriteChunk;
  }

  // ---- What a line is read as ------------------------------------------------------------

  predicate Spaces(s: string) { forall i :: 0 <= i < |s| ==> IsSpace(s[i]) }

  lemma {:induction false} TrimGap(gap: string, p: string)
    requires Spaces(gap) && (p == "" || !IsSpace(p[0]))
    ensures TrimStart(gap + p) == p
  {
    if gap == "" {
      PrependEmpty(p);
    } else {
      assert (gap + p)[1..] == gap[1..] + p;
      TrimGap(gap[1..], p);
    }
  }

  /** The end of a line does not count, be it absent, a line feed or a carriage return before one. */
  lemma EndDropped(l: string, end: string)
    requires end == "" || end == "\n" || end == "\r\n"
    requires l == "" || (l[|l| - 1] != '\n' && l[|l| - 1] != '\r')
    ensures StripLast(StripLast(l + end, '\n'), '\r') == l
  {
    if end == "" {
      AppendEmpty(l);
    } else if end == "\n" {
      assert (l + end)[..|l|] == l;
    } else {
      assert (l + end)[..|l| + 1] == l + "\r";
      assert (l + "\r")[..|l|] == l;
    }
  }

  /** A `data:` line, with any space after the colon: the end marker, a chunk if it is an object, or neither. */
  lemma ReadsData(c: Codec, line: seq<byte>, gap: string, p: string, end: string)
    requires c.decode(line) == Some("data:" + gap + p + end)
    requires Spaces(gap) && p != "" && !IsSpace(p[0]) && p[|p| - 1] != '\n' && p[|p| - 1] != '\r'
    requires end == "" || end == "\n" || end == "\r\n"
    ensures Read(c, line) ==
            if p == "[DONE]" then Done
            else if c.parse(p).Some? && c.parse(p).value.Obj? then Chunk(p, c.parse(p).value)
            else Other("data:" + gap + p)
  {
    hide TrimStart, StripLast;
    var l := "data:" + gap + p;
    EndDropped(l, end);
    assert l[5..] == gap + p;
    TrimGap(gap, p);
  }
}
