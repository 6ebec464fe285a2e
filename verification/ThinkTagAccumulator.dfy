/**
 The accumulator of `src/response_normalize.rs` itself: the mutable state machine, its drain loop and
 the two searches inside it.
 */
module ThinkTagAccumulator {
  import opened Sequences
  import opened Wrappers
  import opened ThinkTags
  import opened ThinkTagTheorems

  datatype Pair = Pair(open: string, close: string)

  function BuiltinPairs(): seq<Pair> {
    [Pair("<think>", "</think>"), Pair("<thinking>", "</thinking>")]
  }

  // ---- From configured pairs to usable tags ----------------------------------------------

  /** The tags one pair contributes: none if its open tag is empty, closes only inside reasoning. */
  function PairNeedles(p: Pair, mode: Mode): seq<Needle> {
    if p.open == "" then []
    else if p.close == "" || mode.InText? then [Needle(p.open, Open)]
    else [Needle(p.open, Open), Needle(p.close, Close)]
  }

  function Needles(pairs: seq<Pair>, mode: Mode): seq<Needle> {
    if pairs == [] then []
    else Needles(pairs[..|pairs| - 1], mode) + PairNeedles(pairs[|pairs| - 1], mode)
  }

  function Max(a: nat, b: nat): nat { if a < b then b else a }

  function Longest(pairs: seq<Pair>): nat {
    if pairs == [] then 0
    else
      var p := pairs[|pairs| - 1];
      Max(Longest(pairs[..|pairs| - 1]), Max(ByteLen(p.open), ByteLen(p.close)))
  }

  function TagsOf(pairs: seq<Pair>): Tags {
    Tags(Needles(pairs, InText), Needles(pairs, InReasoning), Longest(pairs))
  }

  lemma TagsOfValid(pairs: seq<Pair>)
    ensures Valid(TagsOf(pairs))
  {
    if pairs != [] {
      TagsOfValid(pairs[..|pairs| - 1]);
    }
  }

  /** `s` is an open or a close tag of some pair. */
  ghost predicate IsTagOf(pairs: seq<Pair>, s: string) { exists p :: p in pairs && (s == p.open || s == p.close) }

  /** The window is the length in bytes of the longest open or close tag configured. */
  lemma {:induction false} LongestIs(pairs: seq<Pair>)
    ensures forall s :: IsTagOf(pairs, s) ==> ByteLen(s) <= Longest(pairs)
    ensures pairs != [] ==> exists s :: IsTagOf(pairs, s) && ByteLen(s) == Longest(pairs)
    ensures pairs == [] ==> Longest(pairs) == 0
  {
    hide ByteLen;
    if pairs != [] {
      var front, p := pairs[..|pairs| - 1], pairs[|pairs| - 1];
      LongestIs(front);
      assert pairs == front + [p];
      assert IsTagOf(pairs, p.open) && IsTagOf(pairs, p.close);
      if Longest(front) > Max(ByteLen(p.open), ByteLen(p.close)) {
        assert front != [];
        var s :| IsTagOf(front, s) && ByteLen(s) == Longest(front);
        assert IsTagOf(pairs, s);
      }
    }
  }

  lemma BuiltinLongest()
    ensures Longest(BuiltinPairs()) == 11
  {
    hide ByteLen;
    var ps := BuiltinPairs();
    assert ps[..1] == [ps[0]] && ps[..1][..0] == [];
    TagLengths();
    assert Longest(ps[..1]) == 8;
  }

  lemma TagLengths()
    ensures ByteLen("<think>") == 7 && ByteLen("</think>") == 8
    ensures ByteLen("<thinking>") == 10 && ByteLen("</thinking>") == 11
  {
    hide ByteLen;
    AsciiLength("<think>");
    AsciiLength("</think>");
    AsciiLength("<thinking>");
    AsciiLength("</thinking>");
  }

  lemma AsciiLength(s: string)
    requires forall i :: 0 <= i < |s| ==> s[i] as int < 0x80
    ensures ByteLen(s) == |s|
  {
  }

  /** `n` is a tag of `p`, and neither it nor the open tag is empty. */
  predicate UsableTag(p: Pair, n: Needle) {
    n.text != "" && p.open != "" && (n == Needle(p.open, Open) || n == Needle(p.close, Close))
  }

  lemma PairTags(p: Pair, n: Needle)
    ensures n in PairNeedles(p, InReasoning) <==> UsableTag(p, n)
    ensures n in PairNeedles(p, InText) <==> UsableTag(p, n) && n.kind.Open?
  {
  }

  /** The tags usable in text are the open tags; those usable in reasoning, the close tags as well. */
  lemma {:induction false} ActiveTags(pairs: seq<Pair>, n: Needle)
    ensures n in Needles(pairs, InReasoning) <==> exists p :: p in pairs && UsableTag(p, n)
    ensures n in Needles(pairs, InText) <==> n in Needles(pairs, InReasoning) && n.kind.Open?
  {
    hide PairNeedles, UsableTag;
    if pairs != [] {
      var front, p := pairs[..|pairs| - 1], pairs[|pairs| - 1];
      ActiveTags(front, n);
      PairTags(p, n);
      assert pairs == front + [p];
    }
  }

  /** The usable needles are exactly the non-empty tags of pairs whose open tag is non-empty. */
  lemma {:induction false} InNeedles(pairs: seq<Pair>, n: Needle)
    ensures n in Needles(pairs, InReasoning) <==>
            exists i :: 0 <= i < |pairs| && n in PairNeedles(pairs[i], InReasoning)
  {
    hide PairNeedles;
    if pairs != [] {
      var front, last := pairs[..|pairs| - 1], |pairs| - 1;
      InNeedles(front, n);
      assert forall i :: 0 <= i < last ==> PairNeedles(front[i], InReasoning) == PairNeedles(pairs[i], InReasoning);
    }
  }

  /** Shaped like `<...>` with no angle bracket inside. */
  predicate Bracketed(s: string) {
    && |s| >= 2 && s[0] == '<' && s[|s| - 1] == '>'
    && forall k :: 1 <= k < |s| - 1 ==> s[k] != '<' && s[k] != '>'
  }

  /** Any tags shaped like `<...>` satisfy what chunked feeding relies on. */
  lemma BracketedSeparable(ts: Tags)
    requires Valid(ts) && forall n :: n in ts.all ==> Bracketed(n.text)
    ensures Separable(ts)
  {
    forall n, m | n in ts.all && m in ts.all && n.text <= m.text ensures n.text == m.text {
      var k := |n.text| - 1;
      assert m.text[k] == n.text[k];
    }
  }

  lemma BuiltinNeedles()
    ensures Needles(BuiltinPairs(), InReasoning) ==
            [Needle("<think>", Open), Needle("</think>", Close), Needle("<thinking>", Open),
              Needle("</thinking>", Close)]
  {
    var ps := BuiltinPairs();
    assert ps[..1] == [ps[0]] && ps[..1][..0] == [];
  }

  lemma BuiltinSeparable()
    ensures Separable(TagsOf(BuiltinPairs()))
  {
    hide BuiltinPairs, Needles, Longest, Bracketed, Separable;
    TagsOfValid(BuiltinPairs());
    BuiltinNeedles();
    BuiltinBracketed();
    BracketedSeparable(TagsOf(BuiltinPairs()));
  }

  lemma BuiltinBracketed()
    ensures Bracketed("<think>") && Bracketed("</think>") && Bracketed("<thinking>") && Bracketed("</thinking>")
  {
    assert Bracketed("<think>");
    assert Bracketed("</think>");
    assert Bracketed("<thinking>");
    assert Bracketed("</thinking>");
  }

  // ---- The searches ----------------------------------------------------------------------

  /** `str::find`, counted in scalars: where `t` first occurs in `x`. */
  function IndexOf(x: string, t: string): Option<nat> {
    if t <= x then Some(0)
    else if x == "" then None
    else match IndexOf(x[1..], t) { case Some(p) => Some(p + 1) case None => None }
  }

  /** The replacement rule of `find_next_tag`: earlier wins, then longer in bytes. */
  function Better(best: Found, idx: Option<nat>, n: Needle): Found {
    if idx.Some? &&
       (best.Nowhere? || idx.value < best.pos || (idx.value == best.pos && ByteLen(n.text) > ByteLen(best.needle.text)))
    then At(idx.value, n)
    else best
  }

  lemma PrefixLengths(a: string, b: string, x: string)
    requires a <= x && b <= x
    ensures ByteLen(a) < ByteLen(b) <==> |a| < |b|
  {
    if a != "" && b != "" {
      PrefixLengths(a[1..], b[1..], x[1..]);
    }
  }

  lemma BestAtSnoc(ns: seq<Needle>, n: Needle, x: string)
    requires n.text != ""
    ensures var best := BestAt(ns, x);
            BestAt(ns + [n], x) == if n.text <= x && (best.None? || |best.value.text| < |n.text|) then Some(n) else best
  {
    assert (ns + [n])[..|ns|] == ns;
  }

  /** Trying one more tag with the replacement rule keeps the earliest, longest match. */
  lemma {:induction false} FindNextSnoc(ns: seq<Needle>, n: Needle, x: string)
    requires n.text != ""
    ensures FindNext(ns + [n], x) == Better(FindNext(ns, x), IndexOf(x, n.text), n)
    decreases |x|
  {
    hide ByteLen, BestAt;
    var best := BestAt(ns, x);
    BestAtSnoc(ns, n, x);
    if n.text <= x && best.Some? {
      PrefixLengths(best.value.text, n.text, x);
    }
    if x != "" {
      FindNextSnoc(ns, n, x[1..]);
    }
  }

  /** The first character of a tail decides whether any prefix of the tail begins a tag. */
  lemma PrefixOfTag(pairs: seq<Pair>, tail: string, k: nat)
    requires 1 <= k <= |tail|
    ensures BeginsTag(pairs, tail[..k]) ==> Starts(TagsOf(pairs), tail[0])
    ensures BeginsTag(pairs, tail[..1]) <==> Starts(TagsOf(pairs), tail[0])
  {
    var ts := TagsOf(pairs);
    forall i | 0 <= i < |pairs| ensures forall n :: n in PairNeedles(pairs[i], InReasoning) ==> n in ts.all {
      forall n | n in PairNeedles(pairs[i], InReasoning) ensures n in ts.all {
        InNeedles(pairs, n);
      }
    }
    forall j: nat | 1 <= j <= |tail| && BeginsTag(pairs, tail[..j]) ensures Starts(ts, tail[0]) {
      var i :| 0 <= i < |pairs| && PairBegins(pairs[i], tail[..j]);
      var p := pairs[i];
      if tail[..j] <= p.open {
        assert Needle(p.open, Open) in PairNeedles(p, InReasoning) && p.open[0] == tail[..j][0];
      } else {
        assert Needle(p.close, Close) in PairNeedles(p, InReasoning) && p.close[0] == tail[..j][0];
      }
    }
    if Starts(ts, tail[0]) {
      var n :| n in ts.all && n.text != "" && n.text[0] == tail[0];
      InNeedles(pairs, n);
      var i :| 0 <= i < |pairs| && n in PairNeedles(pairs[i], InReasoning);
      assert tail[..1] <= n.text;
      assert PairBegins(pairs[i], tail[..1]);
    }
  }

  predicate PairBegins(p: Pair, s: string) {
    p.open != "" && (s <= p.open || (p.close != "" && s <= p.close))
  }

  /** The inner loops of `hold_partial_tail`: some usable tag starts with `s`. */
  predicate BeginsTag(pairs: seq<Pair>, s: string) {
    exists i :: 0 <= i < |pairs| && PairBegins(pairs[i], s)
  }

  // ---- The state machine -----------------------------------------------------------------

  class Accumulator {
    const pairs: seq<Pair>
    const longestTag: nat
    var state: Mode
    var pending: string
    var tagCount: nat

    ghost predicate Valid()
      reads this
    {
      longestTag == Longest(pairs)
    }

    constructor (pairs: seq<Pair>)
      ensures Valid() && this.pairs == pairs && state == InText && pending == "" && tagCount == 0
    {
      this.pairs := pairs;
      this.longestTag := Longest(pairs);
      this.state := InText;
      this.pending := "";
      this.tagCount := 0;
    }

    method Feed(delta: string) returns (events: seq<ThinkEvent>)
      requires Valid()
      modifies this
      ensures Valid()
      ensures var d := Drain(TagsOf(pairs), old(state), old(pending) + delta);
              events == d.events && state == d.mode && pending == d.pending && tagCount == old(tagCount) + d.tags
    {
      pending := pending + delta;
      events := DrainResolved();
    }

    method DrainResolved() returns (events: seq<ThinkEvent>)
      requires Valid()
      modifies this
      ensures Valid()
      ensures var d := Drain(TagsOf(pairs), old(state), old(pending));
              events == d.events && state == d.mode && pending == d.pending && tagCount == old(tagCount) + d.tags
    {
      hide FindNext, TagsOf, HoldPos, Drain;
      events := [];
      ghost var ts := TagsOf(pairs);
      ghost var all := Drain(ts, state, pending);
      while true
        invariant Valid() && ts == TagsOf(pairs)
        invariant var d := Drain(ts, state, pending);
                  && all.events == events + d.events && all.mode == d.mode && all.pending == d.pending
                  && old(tagCount) + all.tags == tagCount + d.tags
        decreases |pending|
      {
        var found := FindNextTag();
        DrainStep(ts, state, pending);
        if found.Nowhere? {
          var flushed := HoldPartialTail();
          Assoc(events, Emit(state, flushed), if pending != "" then [Pending] else []);
          AppendEmpty(events);
          AppendEmpty(events + Emit(state, flushed));
          if flushed != "" {
            events := events + (if state.InText? then [Text(flushed)] else [Reasoning(flushed)]);
          }
          if pending != "" {
            events := events + [Pending];
          }
          return;
        }
        var before := pending[..found.pos];
        pending := pending[found.pos + |found.needle.text|..];
        tagCount := tagCount + 1;
        Assoc(events, Emit(state, before), Drain(ts, After(found.needle.kind), pending).events);
        AppendEmpty(events);
        if before != "" {
          events := events + (if state.InText? then [Text(before)] else [Reasoning(before)]);
        }
        state := After(found.needle.kind);
      }
    }

    method FindNextTag() returns (best: Found)
      ensures best == FindNext(Active(TagsOf(pairs), state), pending)
    {
      hide FindNext, Better, IndexOf;
      best := Nowhere;
      assert FindNext([], pending) == Nowhere by { NothingToFind(pending); }
      for i := 0 to |pairs|
        invariant best == FindNext(Needles(pairs[..i], state), pending)
      {
        var p := pairs[i];
        ghost var ns := Needles(pairs[..i], state);
        assert pairs[..i + 1][..i] == pairs[..i];
        assert Needles(pairs[..i + 1], state) == ns + PairNeedles(p, state);
        if p.open == "" {
          assert ns + [] == ns;
          continue;
        }
        FindNextSnoc(ns, Needle(p.open, Open), pending);
        best := Better(best, IndexOf(pending, p.open), Needle(p.open, Open));
        if p.close == "" || state.InText? {
          continue;
        }
        FindNextSnoc(ns + [Needle(p.open, Open)], Needle(p.close, Close), pending);
        best := Better(best, IndexOf(pending, p.close), Needle(p.close, Close));
        assert ns + [Needle(p.open, Open)] + [Needle(p.close, Close)] == ns + PairNeedles(p, state);
      }
      assert pairs[..|pairs|] == pairs;
    }

    method HoldPartialTail() returns (flushed: string)
      requires Valid()
      modifies this`pending
      ensures var p := HoldPos(TagsOf(pairs), old(pending));
              flushed == old(pending)[..p] && pending == old(pending)[p..]
    {
      hide HoldPos, HoldPosFrom, Starts, ByteLen, BeginsTag;
      ghost var ts := TagsOf(pairs);
      assert ts.longest == longestTag;
      HoldFrom(ts, pending, |pending|);
      if pending == "" || longestTag == 0 {
        flushed, pending := pending, "";
        return;
      }
      var pos := |pending|;
      while pos > 0 && ByteLen(pending[pos - 1..]) <= longestTag - 1
        invariant 0 <= pos <= |pending| && pending == old(pending)
        invariant HoldPos(ts, pending) == HoldPosFrom(ts, pending, pos)
      {
        HoldFrom(ts, pending, pos);
        var tail := pending[pos - 1..];
        var end := 0;
        while end < |tail|
          invariant 0 <= end <= |tail| && pending == old(pending)
          invariant end > 0 ==> !Starts(ts, tail[0])
        {
          end := end + 1;
          PrefixOfTag(pairs, tail, end);
          if BeginsTag(pairs, tail[..end]) {
            flushed := pending[..pos - 1];
            pending := pending[pos - 1..];
            return;
          }
        }
        pos := pos - 1;
      }
      HoldFrom(ts, pending, pos);
      flushed, pending := pending, "";
    }

    method Flush() returns (rest: string)
      modifies this`pending
      ensures rest == old(pending) && pending == ""
    {
      rest, pending := pending, "";
    }
  }

  /** One step of the walk back. */
  lemma HoldFrom(ts: Tags, x: string, p: nat)
    requires p <= |x|
    ensures HoldPos(ts, x) == HoldPosFrom(ts, x, |x|)
    ensures HoldPosFrom(ts, x, p) ==
            if p == 0 || ts.longest <= ByteLen(x[p - 1..]) then |x|
            else if Starts(ts, x[p - 1]) then p - 1
            else HoldPosFrom(ts, x, p - 1)
  {
    hide Starts, ByteLen;
  }

  lemma DrainStep(ts: Tags, mode: Mode, x: string)
    ensures var r := FindNext(Active(ts, mode), x);
            Drain(ts, mode, x) ==
            if r.At? then Prepend(Emit(mode, x[..r.pos]), Drain(ts, After(r.needle.kind), x[r.pos + |r.needle.text|..]))
            else Settle(ts, mode, x)
  {
    hide FindNext, Settle, Emit;
  }

  lemma NothingToFind(x: string)
    ensures FindNext([], x) == Nowhere
  {
  }
}
