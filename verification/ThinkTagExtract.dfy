/**
 One-shot extraction (`extract_think_tags`), its agreement with the reference scanner, and what it makes
 of the blocks of reasoning.
 */
module ThinkTagExtract {
  import opened Sequences
  import opened Wrappers
  import opened ThinkTags
  import opened ThinkTagTheorems
  import opened ThinkTagAccumulator
  import opened ThinkTagLimits

  // ---- Reading an event list -------------------------------------------------------------

  function TextIn(evs: seq<ThinkEvent>): string {
    if evs == [] then ""
    else TextIn(evs[..|evs| - 1]) + (if evs[|evs| - 1].Text? then evs[|evs| - 1].s else "")
  }

  function ReasoningIn(evs: seq<ThinkEvent>): seq<string> {
    if evs == [] then []
    else
      var front := ReasoningIn(evs[..|evs| - 1]);
      if evs[|evs| - 1].Reasoning? then front + [evs[|evs| - 1].s] else front
  }

  lemma CollectLast(evs: seq<ThinkEvent>, ev: ThinkEvent, t: Tally)
    ensures Collect(evs + [ev], t) == Collect(evs, Collect([ev], t))
  {
    if evs == [] {
      assert evs + [ev] == [ev];
    } else {
      assert (evs + [ev])[1..] == evs[1..] + [ev];
      CollectLast(evs[1..], ev, t);
    }
  }

  /** Reading events from the left or from the right gives the same two sides. */
  lemma {:induction false} CollectReads(evs: seq<ThinkEvent>, t: Tally)
    ensures var c := Collect(evs, t);
            c.text == TextIn(evs) + t.text && c.reasoning == Concat(ReasoningIn(evs)) + t.reasoning
  {
    if evs != [] {
      var front, ev := evs[..|evs| - 1], evs[|evs| - 1];
      assert evs == front + [ev];
      CollectLast(front, ev, t);
      CollectReads(front, Collect([ev], t));
      ReadsLast(front, ev, t);
    }
  }

  lemma ReadsLast(front: seq<ThinkEvent>, ev: ThinkEvent, t: Tally)
    ensures var u := Collect([ev], t);
            && TextIn(front) + u.text == TextIn(front + [ev]) + t.text
            && Concat(ReasoningIn(front)) + u.reasoning == Concat(ReasoningIn(front + [ev])) + t.reasoning
  {
    assert (front + [ev])[..|front|] == front;
    assert [ev][1..] == [] && Collect([], t) == t;
    match ev
    case Text(s) => assert (TextIn(front) + s) + t.text == TextIn(front) + (s + t.text);
    case Reasoning(s) =>
      var parts := ReasoningIn(front);
      assert (parts + [s])[..|parts|] == parts;
      assert (Concat(parts) + s) + t.reasoning == Concat(parts) + (s + t.reasoning);
    case Pending =>
  }

  function JoinLines(parts: seq<string>): string {
    if parts == [] then ""
    else if |parts| == 1 then parts[0]
    else JoinLines(parts[..|parts| - 1]) + "\n" + parts[|parts| - 1]
  }

  /** The pieces of reasoning a drain hands over: its events, then the tail flushed inside reasoning. */
  function Parts(d: Drained): seq<string> {
    ReasoningIn(d.events) + if d.mode.InReasoning? then Finish(d.pending) else []
  }

  lemma {:induction false} EventsNonEmpty(ts: Tags, mode: Mode, x: string)
    ensures forall ev :: ev in Drain(ts, mode, x).events ==> ev.Pending? || ev.s != ""
    decreases |x|
  {
    hide FindNext, Drain, HoldPos;
    DrainStep(ts, mode, x);
    var r := FindNext(Active(ts, mode), x);
    if r.At? {
      EventsNonEmpty(ts, After(r.needle.kind), x[r.pos + |r.needle.text|..]);
    }
  }

  // ---- When there is nothing to extract --------------------------------------------------

  ghost predicate Occurs(ns: seq<Needle>, x: string) {
    exists n, p :: n in ns && n.text != "" && 0 <= p <= |x| && n.text <= x[p..]
  }

  lemma {:induction false} NowhereIff(ns: seq<Needle>, x: string)
    ensures FindNext(ns, x).At? <==> Occurs(ns, x)
    decreases |x|
  {
    BestAtMember(ns, x);
    assert x[0..] == x;
    if BestAt(ns, x).None? && x != "" {
      NowhereIff(ns, x[1..]);
      forall p: nat | p < |x| ensures x[1..][p..] == x[p + 1..] {
      }
      if Occurs(ns, x[1..]) {
        var n, p :| n in ns && n.text != "" && 0 <= p <= |x[1..]| && n.text <= x[1..][p..];
        assert n.text <= x[p + 1..];
      }
      if Occurs(ns, x) {
        var n, p :| n in ns && n.text != "" && 0 <= p <= |x| && n.text <= x[p..];
        assert n.text <= x[1..][p - 1..];
      }
    }
  }

  /** The drain of a tagless text matches no tag and stays in text. */
  lemma {:induction false} TaglessText(ts: Tags, x: string)
    ensures var d := Drain(ts, InText, x);
            && (d.tags == 0 <==> FindNext(ts.opens, x).Nowhere?)
            && (d.tags == 0 ==> d.mode.InText? && ReasoningIn(d.events) == [] && Flushed(d).text == x)
  {
    hide FindNext, Drain, HoldPos, Collect;
    DrainStep(ts, InText, x);
    if FindNext(ts.opens, x).Nowhere? {
      SettleTally(ts, InText, x);
      var p := HoldPos(ts, x);
      var d := Drain(ts, InText, x);
      assert d.events == Emit(InText, x[..p]) + (if p < |x| then [Pending] else []);
      NoReasoning(d.events);
    }
  }

  lemma NoReasoning(evs: seq<ThinkEvent>)
    requires forall ev :: ev in evs ==> !ev.Reasoning?
    ensures ReasoningIn(evs) == []
  {
  }

  // ---- Blocks of reasoning ---------------------------------------------------------------

  function Finish(run: string): seq<string> { if run == "" then [] else [run] }

  function BlocksFrom(run: string, ps: seq<Piece>): seq<string>
    decreases |ps|
  {
    if ps == [] then Finish(run)
    else if ps[0].Tag? then Finish(run) + BlocksFrom("", ps[1..])
    else BlocksFrom(if ps[0].mode.InReasoning? then run + [ps[0].c] else run, ps[1..])
  }

  /** The think blocks of a scan: the non-empty runs of reasoning characters between tags. */
  function Blocks(ps: seq<Piece>): seq<string> { BlocksFrom("", ps) }

  lemma {:induction false} ConcatFront(s: string, parts: seq<string>)
    ensures Concat([s] + parts) == s + Concat(parts)
  {
    if parts == [] {
      assert [s][..0] == [] && [s] + parts == [s];
      assert "" + s == s == s + "";
    } else {
      var k := |parts| - 1;
      assert ([s] + parts)[..k + 1] == [s] + parts[..k] && ([s] + parts)[k + 1] == parts[k];
      ConcatFront(s, parts[..k]);
      Assoc(s, Concat(parts[..k]), parts[k]);
    }
  }

  lemma FinishConcat(run: string, parts: seq<string>)
    ensures Concat(Finish(run) + parts) == run + Concat(parts)
  {
    hide Concat;
    if run == "" {
      assert Finish(run) + parts == parts && "" + Concat(parts) == Concat(parts);
    } else {
      ConcatFront(run, parts);
    }
  }

  /** The blocks hold the reasoning side of the scan, all of it and in order. */
  lemma {:induction false} BlocksAreReasoning(run: string, mode: Mode, ps: seq<Piece>)
    ensures Concat(BlocksFrom(run, ps)) == run + Count(mode, ps).reasoning
    decreases |ps|
  {
    hide Concat;
    if ps == [] {
      assert Finish(run) + [] == Finish(run);
      FinishConcat(run, []);
      assert Concat([]) == "" by { NothingJoined(); }
    } else if ps[0].Tag? {
      BlocksAreReasoning("", After(ps[0].needle.kind), ps[1..]);
      FinishConcat(run, BlocksFrom("", ps[1..]));
      assert "" + Count(After(ps[0].needle.kind), ps[1..]).reasoning ==
        Count(After(ps[0].needle.kind), ps[1..]).reasoning;
    } else {
      var more := if ps[0].mode.InReasoning? then run + [ps[0].c] else run;
      BlocksAreReasoning(more, mode, ps[1..]);
      Assoc(run, [ps[0].c], Count(mode, ps[1..]).reasoning);
    }
  }

  lemma NothingJoined()
    ensures Concat([]) == ""
  {
  }

  lemma {:induction false} BlocksOfChars(run: string, mode: Mode, s: string, rest: seq<Piece>)
    ensures BlocksFrom(run, Chars(mode, s) + rest) == BlocksFrom(if mode.InReasoning? then run + s else run, rest)
    decreases |s|
  {
    if s == "" {
      assert [] + rest == rest && run + "" == run;
    } else {
      var c := Char(mode, s[0]);
      Assoc([c], Chars(mode, s[1..]), rest);
      assert ([c] + (Chars(mode, s[1..]) + rest))[1..] == Chars(mode, s[1..]) + rest;
      BlocksOfChars(if mode.InReasoning? then run + [s[0]] else run, mode, s[1..], rest);
      Assoc(run, [s[0]], s[1..]);
      assert [s[0]] + s[1..] == s;
    }
  }

  function Side(mode: Mode, s: string): seq<string> { if mode.InReasoning? then Finish(s) else [] }

  lemma {:induction false} BlocksShape(ts: Tags, mode: Mode, x: string)
    ensures Blocks(Scan(ts, mode, x)) ==
            match FindNext(Active(ts, mode), x)
            case At(pos, n) => Side(mode, x[..pos]) + Blocks(Scan(ts, After(n.kind), x[pos + |n.text|..]))
            case Nowhere => Side(mode, x)
  {
    hide FindNext, Scan;
    ScanShape(ts, mode, x);
    match FindNext(Active(ts, mode), x)
    case At(pos, n) =>
      var rest := Scan(ts, After(n.kind), x[pos + |n.text|..]);
      BlocksOfChars("", mode, x[..pos], [Tag(n)] + rest);
      assert ([Tag(n)] + rest)[1..] == rest && "" + x[..pos] == x[..pos];
    case Nowhere =>
      BlocksOfChars("", mode, x, []);
      AppendEmpty(Chars(mode, x));
      assert "" + x == x;
  }

  lemma {:induction false} ReasoningSplit(a: seq<ThinkEvent>, b: seq<ThinkEvent>)
    ensures ReasoningIn(a + b) == ReasoningIn(a) + ReasoningIn(b)
    decreases |b|
  {
    if b == [] {
      AppendEmpty(a);
      AppendEmpty(ReasoningIn(a));
    } else {
      var k := |b| - 1;
      assert (a + b)[..|a| + k] == a + b[..k] && (a + b)[|a| + k] == b[k];
      ReasoningSplit(a, b[..k]);
      Assoc(ReasoningIn(a), ReasoningIn(b[..k]), if b[k].Reasoning? then [b[k].s] else []);
      AppendEmpty(ReasoningIn(a) + ReasoningIn(b[..k]));
    }
  }

  lemma ReasoningEmitted(mode: Mode, s: string)
    ensures ReasoningIn(Emit(mode, s)) == Side(mode, s)
  {
    if s != "" {
      assert Emit(mode, s)[..0] == [];
    }
  }

  /** The input ends inside a block whose end, but not all of it, is held back. */
  predicate SplitBlock(ts: Tags, mode: Mode, ps: seq<Piece>) {
    Count(mode, ps).mode.InReasoning? && 0 < HoldPos(ts, LastRun(ps)) < |LastRun(ps)|
  }

  /** What the source joins: the blocks, but for such a last block its two halves. */
  function Pieces(ts: Tags, mode: Mode, ps: seq<Piece>): seq<string> {
    if !SplitBlock(ts, mode, ps) || Blocks(ps) == [] then Blocks(ps)
    else
      var s, k := LastRun(ps), |Blocks(ps)| - 1;
      Blocks(ps)[..k] + [s[..HoldPos(ts, s)]] + [s[HoldPos(ts, s)..]]
  }

  /** A block cut in two is the last one. */
  lemma {:induction false} PartsAre(ts: Tags, mode: Mode, x: string)
    ensures var d, ps := Drain(ts, mode, x), Scan(ts, mode, x);
            && d.mode == Count(mode, ps).mode
            && Parts(d) == Pieces(ts, mode, ps)
            && (SplitBlock(ts, mode, ps) ==> Blocks(ps) != [] && Blocks(ps)[|Blocks(ps)| - 1] == LastRun(ps))
    decreases |x|
  {
    hide FindNext, Scan, Count, Drain, HoldPos, Blocks, LastRun, Emit, AddFront, ReasoningIn;
    BlocksShape(ts, mode, x);
    LastRunShape(ts, mode, x);
    DrainStep(ts, mode, x);
    ScanToTag(ts, mode, x);
    ModeIs(ts, mode, x);
    match FindNext(Active(ts, mode), x)
    case At(pos, n) =>
      var to, rest := After(n.kind), x[pos + |n.text|..];
      var d, front := Drain(ts, to, rest), Side(mode, x[..pos]);
      PartsAre(ts, to, rest);
      ModeIs(ts, to, rest);
      ReasoningSplit(Emit(mode, x[..pos]), d.events);
      ReasoningEmitted(mode, x[..pos]);
      Assoc(front, ReasoningIn(d.events), if d.mode.InReasoning? then Finish(d.pending) else []);
      PiecesBehind(ts, mode, Scan(ts, mode, x), to, Scan(ts, to, rest), front);
    case Nowhere => TaglessParts(ts, mode, x);
  }

  lemma ModeIs(ts: Tags, mode: Mode, x: string)
    ensures Drain(ts, mode, x).mode == Count(mode, Scan(ts, mode, x)).mode
  {
    hide Drain, Count, Scan;
    DrainIsScan(ts, mode, x);
    var d := Drain(ts, mode, x);
    CollectMode(d.events, AddFront(d.mode, d.pending, Tally("", "", d.mode, d.tags)));
  }

  lemma PiecesBehind(ts: Tags, mode: Mode, ps: seq<Piece>, to: Mode, qs: seq<Piece>, front: seq<string>)
    requires Blocks(ps) == front + Blocks(qs) && LastRun(ps) == LastRun(qs) &&
             Count(mode, ps).mode == Count(to, qs).mode
    requires SplitBlock(ts, to, qs) ==> Blocks(qs) != [] && Blocks(qs)[|Blocks(qs)| - 1] == LastRun(qs)
    ensures Pieces(ts, mode, ps) == front + Pieces(ts, to, qs)
    ensures SplitBlock(ts, mode, ps) ==> Blocks(ps) != [] && Blocks(ps)[|Blocks(ps)| - 1] == LastRun(ps)
  {
    hide Blocks, LastRun, Count, HoldPos;
    if SplitBlock(ts, to, qs) {
      var s, k := LastRun(qs), |Blocks(qs)| - 1;
      assert Blocks(ps)[..|front| + k] == front + Blocks(qs)[..k];
      Assoc(front, Blocks(qs)[..k], [s[..HoldPos(ts, s)]]);
      Assoc(front, Blocks(qs)[..k] + [s[..HoldPos(ts, s)]], [s[HoldPos(ts, s)..]]);
    }
  }

  lemma TaglessParts(ts: Tags, mode: Mode, x: string)
    requires FindNext(Active(ts, mode), x).Nowhere?
    ensures var d, ps := Drain(ts, mode, x), Scan(ts, mode, x);
            && Parts(d) == Pieces(ts, mode, ps)
            && (SplitBlock(ts, mode, ps) ==> Blocks(ps) != [] && Blocks(ps)[|Blocks(ps)| - 1] == LastRun(ps))
  {
    hide FindNext, Scan, Count, Drain, HoldPos, Blocks, LastRun, Emit, ReasoningIn;
    BlocksShape(ts, mode, x);
    LastRunShape(ts, mode, x);
    DrainStep(ts, mode, x);
    ModeIs(ts, mode, x);
    var p := HoldPos(ts, x);
    var held: seq<ThinkEvent> := if p < |x| then [Pending] else [];
    ReasoningSplit(Emit(mode, x[..p]), held);
    ReasoningEmitted(mode, x[..p]);
    NoReasoning(held);
    AppendEmpty(Side(mode, x[..p]));
    if mode.InReasoning? {
      if p == 0 {
        assert x[..p] == "" && x[p..] == x;
        assert [] + Finish(x) == Finish(x);
      } else if p == |x| {
        assert x[..p] == x && x[p..] == "";
        AppendEmpty(Finish(x));
      } else {
        assert Finish(x[..p]) + Finish(x[p..]) == [] + [x[..p]] + [x[p..]];
        assert Blocks(Scan(ts, mode, x))[..0] == [];
      }
    }
  }

  // ---- extract_think_tags ----------------------------------------------------------------

  /**
   The cleaned content is the text side of the reference scan; the reasoning is `None` exactly when
   no open tag occurs, and then the content comes back unchanged. Otherwise the reasoning is the think
   blocks joined by newlines if and only if the input does not end inside a block of which only a part
   is held back; in that case a newline separates the two parts.
   */
  method ExtractThinkTags(content: string, pairs: seq<Pair>) returns (reasoning: Option<string>, text: string)
    ensures text == Count(InText, Scan(TagsOf(pairs), InText, content)).text
    ensures reasoning.None? <==> !Occurs(TagsOf(pairs).opens, content)
    ensures reasoning.None? ==> text == content
    ensures reasoning.Some? ==>
              var ts := TagsOf(pairs);
              var ps := Scan(ts, InText, content);
              && reasoning.value == JoinLines(Pieces(ts, InText, ps))
              && (reasoning.value == JoinLines(Blocks(ps)) <==> !SplitBlock(ts, InText, ps))
              && Concat(Blocks(ps)) == Count(InText, ps).reasoning
  {
    hide Drain, Scan, Count, TagsOf, JoinLines, Occurs, Concat, TextIn, ReasoningIn, Longest, Blocks, Pieces,
      SplitBlock;
    var acc := new Accumulator(pairs);
    var events := acc.Feed(content);
    assert "" + content == content;
    EventsNonEmpty(TagsOf(pairs), InText, content);
    var joined, saw;
    text, joined, saw := ReadEvents(events);
    Extracted(pairs, content);
    Joined(TagsOf(pairs), content);
    AppendEmpty(text);
    AppendEmpty(ReasoningIn(events));
    var flushed := acc.Flush();
    if flushed != "" {
      if acc.state.InReasoning? {
        saw := true;
        JoinOneMore(ReasoningIn(events), flushed);
        if joined != "" {
          joined := joined + "\n";
        }
        joined := joined + flushed;
      } else {
        text := text + flushed;
      }
    }
    if saw || acc.tagCount > 0 {
      reasoning := Some(joined);
    } else {
      reasoning := None;
    }
  }

  /** The event loop of `extract_think_tags`. */
  method ReadEvents(events: seq<ThinkEvent>) returns (text: string, joined: string, saw: bool)
    requires forall ev :: ev in events ==> ev.Pending? || ev.s != ""
    ensures text == TextIn(events) && joined == JoinLines(ReasoningIn(events))
    ensures saw <==> ReasoningIn(events) != []
    ensures joined == "" <==> ReasoningIn(events) == []
  {
    text, joined, saw := "", "", false;
    for i := 0 to |events|
      invariant text == TextIn(events[..i]) && joined == JoinLines(ReasoningIn(events[..i]))
      invariant saw <==> ReasoningIn(events[..i]) != []
      invariant joined == "" <==> ReasoningIn(events[..i]) == []
    {
      assert events[..i + 1][..i] == events[..i];
      assert events[i] in events;
      match events[i]
      case Reasoning(s) =>
        saw := true;
        JoinOneMore(ReasoningIn(events[..i]), s);
        if joined != "" && s != "" {
          joined := joined + "\n";
        }
        joined := joined + s;
      case Text(s) => text := text + s;
      case Pending =>
    }
    assert events[..|events|] == events;
  }

  lemma JoinOneMore(parts: seq<string>, s: string)
    ensures JoinLines(parts + [s]) == if parts == [] then s else JoinLines(parts) + "\n" + s
  {
    assert (parts + [s])[..|parts|] == parts;
  }

  /** What the events of a one-shot drain amount to, read the way `extract_think_tags` reads them. */
  lemma Extracted(pairs: seq<Pair>, content: string)
    ensures var d := Drain(TagsOf(pairs), InText, content);
            var t := Count(InText, Scan(TagsOf(pairs), InText, content));
            && TextIn(d.events) + (if d.mode.InText? then d.pending else "") == t.text
            && t.tags == d.tags && t.mode == d.mode
            && (d.tags == 0 <==> !Occurs(TagsOf(pairs).opens, content))
            && (d.tags == 0 ==> d.mode.InText? && ReasoningIn(d.events) == [] && t.text == content)
  {
    hide Drain, Scan, Count, FindNext, TagsOf, Occurs;
    var ts := TagsOf(pairs);
    var d := Drain(ts, InText, content);
    DrainIsScan(ts, InText, content);
    var u := AddFront(d.mode, d.pending, Tally("", "", d.mode, d.tags));
    CollectReads(d.events, u);
    CollectMode(d.events, u);
    CollectTags(d.events, u);
    TaglessText(ts, content);
    NowhereIff(ts.opens, content);
  }

  lemma CollectTags(evs: seq<ThinkEvent>, t: Tally)
    ensures Collect(evs, t).tags == t.tags
  {
  }

  lemma Joined(ts: Tags, content: string)
    ensures var ps := Scan(ts, InText, content);
            && Parts(Drain(ts, InText, content)) == Pieces(ts, InText, ps)
            && (JoinLines(Pieces(ts, InText, ps)) == JoinLines(Blocks(ps)) <==> !SplitBlock(ts, InText, ps))
            && Concat(Blocks(ps)) == Count(InText, ps).reasoning
  {
    hide Drain, Scan, Count, JoinLines, Blocks, Concat, LastRun, HoldPos;
    var ps := Scan(ts, InText, content);
    PartsAre(ts, InText, content);
    assert Concat(Blocks(ps)) == Count(InText, ps).reasoning by {
      assert Blocks(ps) == BlocksFrom("", ps) by { FromNothing(ps); }
      BlocksAreReasoning("", InText, ps);
      assert "" + Count(InText, ps).reasoning == Count(InText, ps).reasoning;
    }
    if SplitBlock(ts, InText, ps) {
      var s, k := LastRun(ps), |Blocks(ps)| - 1;
      assert Blocks(ps) == Blocks(ps)[..k] + [s];
      SplitShows(Blocks(ps)[..k], s, HoldPos(ts, s));
    }
  }

  lemma FromNothing(ps: seq<Piece>)
    ensures Blocks(ps) == BlocksFrom("", ps)
  {
  }

  /** Joining the two halves of a block puts one newline more. */
  lemma SplitShows(front: seq<string>, s: string, p: nat)
    requires p <= |s|
    ensures |JoinLines(front + [s[..p]] + [s[p..]])| == |JoinLines(front + [s])| + 1
  {
    hide JoinLines;
    JoinOneMore(front, s);
    JoinOneMore(front, s[..p]);
    JoinOneMore(front + [s[..p]], s[p..]);
  }

  /** The documentation says blocks are joined with a newline; this one block gets a newline inside. */
  lemma UnclosedBlockIsCut()
    ensures var ts := TagsOf(BuiltinPairs());
            var ps := Scan(ts, InText, "<think>a<");
            Blocks(ps) == ["a<"] && JoinLines(Pieces(ts, InText, ps)) == "a\n<"
  {
    hide FindNext, Scan, HoldPos, TagsOf, BuiltinPairs, Count, LastRun, Blocks, JoinLines;
    var ts := TagsOf(BuiltinPairs());
    var x := "<think>a<";
    OpenFound();
    assert x[7..] == "a<" && x[..0] == "";
    OpenBlock(ts);
    BlocksShape(ts, InText, x);
    LastRunShape(ts, InText, x);
    ScanToTag(ts, InText, x);
    assert [] + ["a<"] == ["a<"] && ["a<"][..0] == [];
    assert "a<"[..1] == "a" && "a<"[1..] == "<";
    TwoLines();
  }

  lemma OpenBlock(ts: Tags)
    requires ts == TagsOf(BuiltinPairs())
    ensures var qs := Scan(ts, InReasoning, "a<");
            Blocks(qs) == ["a<"] && LastRun(qs) == "a<" && Count(InReasoning, qs).mode.InReasoning? &&
              HoldPos(ts, "a<") == 1
  {
    hide FindNext, Scan, HoldPos, TagsOf, BuiltinPairs, Count, LastRun, Blocks, Starts, ByteLen;
    BuiltinTags();
    TooShort(ts.all, "a<");
    BlocksShape(ts, InReasoning, "a<");
    LastRunShape(ts, InReasoning, "a<");
    ScanToTag(ts, InReasoning, "a<");
    HoldPosIs(ts, "a<");
    assert "a<"[1..] == "<";
    OneByte();
    assert Holdable(ts, "a<", 1);
  }

  lemma TwoLines()
    ensures JoinLines([] + ["a"] + ["<"]) == "a\n<"
  {
    assert ([] + ["a"] + ["<"])[..1] == ["a"];
    assert "a" + "\n" + "<" == "a\n<";
  }

  lemma OneByte()
    ensures ByteLen("<") == 1
  {
    assert "<"[1..] == "";
  }

  lemma OpenFound()
    ensures FindNext(TagsOf(BuiltinPairs()).opens, "<think>a<") == At(0, Needle("<think>", Open))
  {
    hide Longest, Needles, BuiltinPairs;
    BuiltinOpens();
    var ns, x := TagsOf(BuiltinPairs()).opens, "<think>a<";
    assert ns[0].text <= x && !(ns[1].text <= x) by { assert "<thinking>"[6] != x[6]; }
    assert ns[..1][..0] == [] && BestAt([], x).None?;
    assert BestAt(ns[..1], x) == Some(ns[0]);
    assert BestAt(ns, x) == Some(ns[0]);
  }

  lemma BuiltinOpens()
    ensures Needles(BuiltinPairs(), InText) == [Needle("<think>", Open), Needle("<thinking>", Open)]
  {
    var ps := BuiltinPairs();
    assert ps[..1] == [ps[0]] && ps[..1][..0] == [];
  }
}
