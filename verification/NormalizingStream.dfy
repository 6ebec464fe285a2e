/**
 `NormalizingStream` itself (`src/server/stream_normalize.rs`): the byte buffer, the flags and the
 accumulator, mutated by the poll loop and the line loop, and what a consumer collects from it.

 The inner stream is a script of the answers it will give; an exhausted script is end of stream.
 */
module NormalizingStream {
  import opened Wrappers
  import opened Lines
  import opened Sequences
  import opened ThinkTags
  import opened ThinkTagTheorems
  import opened ThinkTagAccumulator
  import opened ThinkTagExtract
  import SN = StreamNormalize
  import opened StreamTheorems

  datatype Poll = Ready(b: seq<byte>) | Failed(e: string) | Ended | Pending

  function UpBytes(script: seq<Upstream>): seq<byte> {
    if script == [] then [] else (if script[0].Bytes? then script[0].b else []) + UpBytes(script[1..])
  }

  ghost function View(acc: Accumulator): SN.Acc
    reads acc
  {
    SN.Acc(acc.state, acc.pending, acc.tagCount)
  }

  /** The event loop of `rewrite_chunk_value`: the two sides, concatenated. */
  method Sides(events: seq<ThinkEvent>) returns (text: string, reasoning: string)
    ensures text == TextIn(events) && reasoning == Concat(ReasoningIn(events))
  {
    text, reasoning := "", "";
    for i := 0 to |events|
      invariant text == TextIn(events[..i]) && reasoning == Concat(ReasoningIn(events[..i]))
    {
      assert events[..i + 1][..i] == events[..i];
      match events[i]
      case Text(s) => text := text + s;
      case Reasoning(s) =>
        ghost var parts := ReasoningIn(events[..i]);
        assert (parts + [s])[..|parts|] == parts;
        reasoning := reasoning + s;
      case Pending =>
    }
    assert events[..|events|] == events;
  }

  method RewriteChoice(acc: Accumulator, choice: SN.Json) returns (out: SN.Json, emit: bool)
    requires acc.Valid()
    modifies acc
    ensures acc.Valid()
    ensures var r := SN.RewriteChoice(TagsOf(acc.pairs), old(View(acc)), choice);
            View(acc) == r.acc && out == r.choice && emit == r.emit
  {
    hide TagsOf, Drain, SN.FoldAliases, SN.HasPayload, SN.AppendReasoning, TextIn, ReasoningIn, Concat;
    emit := SN.Finished(choice);
    if !SN.HasDelta(choice) {
      return choice, true;
    }
    var delta := SN.FoldAliases(SN.DeltaOf(choice));
    var content := SN.StrAt(delta, "content");
    if content != "" {
      var events := acc.Feed(content);
      var text, reasoning := Sides(events);
      if text == "" {
        delta := delta - {"content"};
      } else {
        delta := delta["content" := SN.Str(text)];
      }
      delta := SN.AppendReasoning(delta, reasoning);
    }
    if SN.HasPayload(delta) {
      emit := true;
    }
    out := SN.Obj(choice.fields["delta" := SN.Obj(delta)]);
  }

  method RewriteChunk(acc: Accumulator, chunk: SN.Json) returns (out: SN.Json, emit: bool)
    requires acc.Valid()
    modifies acc
    ensures acc.Valid()
    ensures var r := SN.RewriteChunk(TagsOf(acc.pairs), old(View(acc)), chunk);
            View(acc) == r.acc && out == r.chunk && emit == r.emit
  {
    hide TagsOf, SN.RewriteChoice;
    emit := SN.Get(chunk, "usage").Some?;
    if !SN.HasChoices(chunk) {
      return chunk, true;
    }
    var choices := SN.ChoicesOf(chunk);
    var done: seq<SN.Json> := [];
    for i := 0 to |choices|
      invariant acc.Valid()
      invariant var r := SN.RewriteChoices(TagsOf(acc.pairs), old(View(acc)), choices[..i]);
                View(acc) == r.acc && done == r.choices && (emit <==> SN.Get(chunk, "usage").Some? || r.emit)
    {
      assert choices[..i + 1][..i] == choices[..i];
      var choice, e := RewriteChoice(acc, choices[i]);
      done := done + [choice];
      emit := emit || e;
    }
    assert choices[..|choices|] == choices;
    out := SN.Obj(chunk.fields["choices" := SN.Arr(done)]);
  }

  class Stream {
    const codec: SN.Codec
    const acc: Accumulator
    var upstream: seq<Upstream>
    var pending: seq<byte>
    var seenDone: bool
    var innerEof: bool
    var completed: bool

    ghost predicate Valid()
      reads this, acc
    {
      && acc.Valid() && acc.pairs == BuiltinPairs()
      && (innerEof ==> upstream == [] && (pending != [] ==> pending[|pending| - 1] == LF))
    }

    ghost function Norm(): SN.Norm
      reads this, acc
    {
      SN.Norm(View(acc), seenDone)
    }

    /** Everything this stream will still send, whatever else happens. */
    ghost function ToSend(): seq<byte>
      reads this, acc
    {
      if completed then []
      else SN.Wire(SN.Remaining(codec, TagsOf(BuiltinPairs()), Norm(), pending + UpBytes(upstream)))
    }

    constructor (codec: SN.Codec, script: seq<Upstream>)
      ensures Valid() && fresh(acc) && !completed && upstream == script
      ensures ToSend() == SN.Wire(SN.Remaining(codec, TagsOf(BuiltinPairs()), SN.FreshNorm, UpBytes(script)))
    {
      hide SN.Remaining, SN.Wire, TagsOf, BuiltinPairs, UpBytes, SN.AllLines, CutLines, Longest;
      this.codec := codec;
      this.acc := new Accumulator(BuiltinPairs());
      this.upstream := script;
      this.pending := [];
      this.seenDone, this.innerEof, this.completed := false, false, false;
      new;
      assert [] + UpBytes(script) == UpBytes(script);
    }

    method TransformLine(line: seq<byte>) returns (out: Option<seq<byte>>)
      requires acc.Valid() && acc.pairs == BuiltinPairs()
      modifies this`seenDone, acc
      ensures acc.Valid()
      ensures var r := SN.TransformLine(codec, TagsOf(BuiltinPairs()), old(Norm()), line);
              && Norm() == r.norm
              && out == if r.out.Some? then Some(r.out.value.wire) else None
    {
      hide SN.RewriteChunk, SN.Read, TagsOf, BuiltinPairs;
      match SN.Read(codec, line)
      case Undecodable => return Some(line);
      case Blank => return None;
      case Done =>
        seenDone := true;
        return Some(codec.encode("data: [DONE]\n\n"));
      case Other(l) => return Some(codec.encode(l + "\n\n"));
      case Chunk(payload, v) =>
        var chunk, emit := RewriteChunk(acc, v);
        if !emit {
          return None;
        }
        if codec.render(chunk) != payload {
          return Some(SN.Data(codec, chunk));
        }
        return Some(line);
    }

    /** `process_pending`: lines are taken from the front until one of them yields something to send. */
    method ProcessPending(ghost more: seq<byte>) returns (out: Option<seq<byte>>)
      requires acc.Valid() && acc.pairs == BuiltinPairs()
      modifies this`pending, this`seenDone, acc
      ensures acc.Valid()
      ensures SN.Wire(SN.Remaining(codec, TagsOf(BuiltinPairs()), old(Norm()), old(pending) + more)) ==
              (if out.Some? then out.value else []) +
                SN.Wire(SN.Remaining(codec, TagsOf(BuiltinPairs()), Norm(), pending + more))
      ensures out.None? ==> FirstLF(pending) == |pending|
      ensures exists k: nat :: k <= |old(pending)| && pending == old(pending)[k..]
      ensures out.Some? ==> |pending| < |old(pending)|
    {
      hide SN.Remaining, SN.Wire, SN.TransformLine, TagsOf, BuiltinPairs, FirstLF;
      ghost var ts := TagsOf(BuiltinPairs());
      ghost var taken := 0;
      assert old(pending)[0..] == old(pending);
      while true
        invariant acc.Valid() && ts == TagsOf(BuiltinPairs())
        invariant SN.Wire(SN.Remaining(codec, ts, old(Norm()), old(pending) + more))
               == SN.Wire(SN.Remaining(codec, ts, Norm(), pending + more))
        invariant 0 <= taken <= |old(pending)| && pending == old(pending)[taken..]
        decreases |pending|
      {
        var end := FirstLF(pending);
        if end == |pending| {
          return None;
        }
        RemainingLine(codec, ts, Norm(), pending, more);
        var line := pending[..end + 1];
        pending := pending[end + 1..];
        taken := taken + end + 1;
        out := TransformLine(line);
        if out.Some? {
          return;
        }
        assert [] + SN.Wire(SN.Remaining(codec, ts, Norm(), pending + more)) ==
          SN.Wire(SN.Remaining(codec, ts, Norm(), pending + more));
      }
    }

    method FlushEof() returns (out: seq<byte>)
      modifies this`seenDone, acc
      ensures out == SN.Wire(SN.FlushEof(codec, old(Norm())))
      ensures old(acc.Valid()) ==> acc.Valid()
    {
      ghost var n := Norm();
      var asReasoning := acc.state.InReasoning? || acc.tagCount > 0;
      var flushed := acc.Flush();
      out := [];
      if flushed != "" {
        out := SN.Data(codec, SN.TailChunk(if asReasoning then "reasoning_content" else "content", flushed));
      }
      if !seenDone {
        out := out + codec.encode("data: [DONE]\n\n");
      }
      seenDone := true;
      FlushWire(codec, n);
    }

    /** The part of `poll_next` that asks the inner stream; an answer that ends the poll is returned. */
    method PollInner() returns (r: Option<Poll>)
      requires Valid() && !completed && !innerEof && FirstLF(pending) == |pending|
      modifies this`pending, this`upstream, this`innerEof
      ensures Valid() && ToSend() == old(ToSend())
      ensures if innerEof then upstream == old(upstream) else |upstream| < |old(upstream)|
      ensures r.Some? ==> !innerEof && !r.value.Ended? && !r.value.Ready?
    {
      hide SN.Remaining, SN.Wire, TagsOf, BuiltinPairs, FirstLF, CutLines, UpBytes;
      if upstream == [] {
        Completed(codec, TagsOf(BuiltinPairs()), Norm(), pending);
        innerEof := true;
        if pending != [] && pending[|pending| - 1] != LF {
          pending := pending + [LF];
        }
        return None;
      }
      var answer := upstream[0];
      NextBytes(pending, upstream);
      upstream := upstream[1..];
      match answer
      case Bytes(b) =>
        pending := pending + b;
        return None;
      case Failure(e) => return Some(Failed(e));
      case NotYet => return Some(Poll.Pending);
    }

    /** The part of `poll_next` that closes the stream. */
    method Finish() returns (r: Poll)
      requires Valid() && innerEof && !completed && pending == []
      modifies this`completed, this`seenDone, acc
      ensures Valid() && completed && (r.Ended? || r.Ready?)
      ensures (if r.Ready? then r.b else []) + ToSend() == old(ToSend())
    {
      hide SN.Remaining, SN.Wire, TagsOf, BuiltinPairs, SN.FlushEof, UpBytes;
      NothingRemains(codec, TagsOf(BuiltinPairs()), Norm());
      completed := true;
      var tail := FlushEof();
      AppendEmpty(tail);
      r := if tail == [] then Ended else Ready(tail);
    }

    /** `poll_next`: nothing is lost, invented or reordered by how often it is polled. */
    method PollNext() returns (r: Poll)
      requires Valid()
      modifies this, acc
      ensures Valid()
      ensures (if r.Ready? then r.b else []) + ToSend() == old(ToSend())
      ensures r.Ended? ==> completed
      ensures !r.Ended? ==>
                Less(innerEof, |upstream|, |pending|, completed,
                     old(innerEof), |old(upstream)|, |old(pending)|, old(completed))
    {
      hide SN.Remaining, SN.Wire, TagsOf, BuiltinPairs, FirstLF, CutLines, SN.FlushEof, UpBytes;
      while true
        invariant Valid() && ToSend() == old(ToSend()) && completed == old(completed)
        invariant innerEof == old(innerEof) && |upstream| == |old(upstream)| ==> |pending| <= |old(pending)|
        invariant innerEof == old(innerEof) ==> |upstream| <= |old(upstream)|
        invariant old(innerEof) ==> innerEof
        decreases !innerEof, |upstream|
      {
        if completed {
          return Ended;
        }
        var out := ProcessPending(UpBytes(upstream));
        if out.Some? {
          return Ready(out.value);
        }
        assert [] + ToSend() == ToSend();
        if innerEof {
          assert pending == [];
          r := Finish();
          return;
        }
        var answer := PollInner();
        if answer.Some? {
          assert [] + ToSend() == ToSend();
          return answer.value;
        }
      }
    }
  }

  predicate Less(eof: bool, up: nat, buf: nat, done: bool, eof0: bool, up0: nat, buf0: nat, done0: bool) {
    || (eof && !eof0)
    || (eof == eof0 && (up < up0 || (up == up0 && (buf < buf0 || (buf == buf0 && done && !done0)))))
  }

  lemma NothingRemains(c: SN.Codec, ts: Tags, n: SN.Norm)
    ensures SN.Remaining(c, ts, n, [] + UpBytes([])) == SN.FlushEof(c, n)
  {
    hide SN.FlushEof;
    assert [] + SN.FlushEof(c, n) == SN.FlushEof(c, n);
  }

  /** The LF appended to an unterminated last line at end of stream changes nothing. */
  lemma Completed(c: SN.Codec, ts: Tags, n: SN.Norm, b: seq<byte>)
    requires FirstLF(b) == |b|
    ensures b != [] ==> b[|b| - 1] != LF
    ensures SN.Remaining(c, ts, n, b + UpBytes([])) ==
            SN.Remaining(c, ts, n, (if b == [] then [] else b + [LF]) + UpBytes([]))
  {
    hide SN.TransformLines, SN.FlushEof;
    assert UpBytes([]) == [];
    if b != [] {
      CutStep(b);
      OneLine(b + [LF]);
      assert b + [] == b && (b + [LF]) + [] == b + [LF];
      assert [] + [b + [LF]] == [b + [LF]];
      assert SN.AllLines(b) == SN.AllLines(b + [LF]);
    }
  }

  lemma NextBytes(buf: seq<byte>, script: seq<Upstream>)
    requires script != []
    ensures buf + UpBytes(script) == (if script[0].Bytes? then buf + script[0].b else buf) + UpBytes(script[1..])
  {
    var first := if script[0].Bytes? then script[0].b else [];
    assert buf + [] == buf;
    Assoc(buf, first, UpBytes(script[1..]));
  }

  lemma FlushWire(c: SN.Codec, n: SN.Norm)
    ensures SN.Wire(SN.FlushEof(c, n)) ==
            (if n.acc.pending == "" then [] else SN.Data(c, SN.TailChunk(SN.TailField(n.acc), n.acc.pending)))
            + (if n.seenDone then [] else c.encode("data: [DONE]\n\n"))
  {
    var tail := SN.TailChunk(SN.TailField(n.acc), n.acc.pending);
    var frame := SN.ChunkFrame(tail, SN.Data(c, tail));
    WireSplit(if n.acc.pending == "" then [] else [frame], if n.seenDone then [] else [SN.DoneFrame(c)]);
    assert SN.Wire([frame]) == frame.wire + [] && SN.Wire([SN.DoneFrame(c)]) == SN.DoneFrame(c).wire + [];
  }

  lemma {:induction false} WireSplit(a: seq<SN.Out>, b: seq<SN.Out>)
    ensures SN.Wire(a + b) == SN.Wire(a) + SN.Wire(b)
  {
    if a == [] {
      assert a + b == b && [] + SN.Wire(b) == SN.Wire(b);
    } else {
      assert (a + b)[1..] == a[1..] + b;
      WireSplit(a[1..], b);
      Assoc(a[0].wire, SN.Wire(a[1..]), SN.Wire(b));
    }
  }

  lemma OneLine(line: seq<byte>)
    requires IsLine(line)
    ensures CutLines(line) == Cut([line], [])
  {
    FirstLFUnique(line, |line| - 1);
    assert line[..|line|] == line && line[|line|..] == [];
    assert CutLines([]) == Cut([], []);
  }

  /** Sending what the first line yields, then what remains behind it, is sending what remains. */
  lemma {:induction false} RemainingLine(c: SN.Codec, ts: Tags, n: SN.Norm, b: seq<byte>, more: seq<byte>)
    requires FirstLF(b) < |b|
    ensures var k := FirstLF(b);
            var r := SN.TransformLine(c, ts, n, b[..k + 1]);
            SN.Wire(SN.Remaining(c, ts, n, b + more)) ==
            (if r.out.Some? then r.out.value.wire else []) + SN.Wire(SN.Remaining(c, ts, r.norm, b[k + 1..] + more))
  {
    hide SN.Remaining, SN.TransformLine, FirstLF, CutLines, SN.Wire, SN.TransformLines;
    var k := FirstLF(b);
    var line, rest := b[..k + 1], b[k + 1..] + more;
    OneLine(line);
    RemainingSplit(c, ts, n, line, rest);
    assert b + more == line + rest && [] + rest == rest;
    JustOne(c, ts, n, line);
    WireSplit(SN.TransformLines(c, ts, n, [line]).outs,
      SN.Remaining(c, ts, SN.TransformLines(c, ts, n, [line]).norm, rest));
  }

  lemma JustOne(c: SN.Codec, ts: Tags, n: SN.Norm, line: seq<byte>)
    ensures var r := SN.TransformLine(c, ts, n, line);
            var s := SN.TransformLines(c, ts, n, [line]);
            s.norm == r.norm && SN.Wire(s.outs) == if r.out.Some? then r.out.value.wire else []
  {
    hide SN.TransformLine;
    var r := SN.TransformLine(c, ts, n, line);
    assert [line][1..] == [];
    assert SN.TransformLines(c, ts, r.norm, []) == SN.LinesOut(r.norm, []);
    if r.out.Some? {
      assert [r.out.value] + [] == [r.out.value];
      assert SN.Wire([r.out.value]) == r.out.value.wire + [];
    }
  }

  /**
   A consumer that polls to the end receives exactly the normalised stream: a function of the
   upstream bytes alone, not of how the network cut them, of stalls, or of errors passed on.
   */
  method CollectAll(codec: SN.Codec, script: seq<Upstream>) returns (out: seq<byte>)
    ensures out == SN.Wire(SN.Remaining(codec, TagsOf(BuiltinPairs()), SN.FreshNorm, UpBytes(script)))
  {
    hide SN.Remaining, SN.Wire, TagsOf, BuiltinPairs, UpBytes, SN.FlushEof;
    var stream := new Stream(codec, script);
    ghost var all := stream.ToSend();
    out := [];
    while true
      invariant stream.Valid() && fresh(stream) && fresh(stream.acc)
      invariant out + stream.ToSend() == all
      decreases !stream.innerEof, |stream.upstream|, |stream.pending|, !stream.completed
    {
      var r := stream.PollNext();
      if r.Ended? {
        return;
      }
      if r.Ready? {
        Assoc(out, r.b, stream.ToSend());
        out := out + r.b;
      } else {
        assert [] + stream.ToSend() == stream.ToSend();
      }
    }
  }
}
