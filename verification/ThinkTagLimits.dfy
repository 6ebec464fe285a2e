/**
 Exactly when the splitter of `src/response_normalize.rs` keeps what it promises: for which tags the
 cutting of the input does not matter, and when a tail held back can still become a tag.
 */
module ThinkTagLimits {
  import opened Sequences
  import opened Wrappers
  import opened ThinkTags
  import opened ThinkTagTheorems
  import opened ThinkTagAccumulator

  // ---- The shape of a scan ---------------------------------------------------------------

  function Chars(mode: Mode, s: string): seq<Piece> {
    if s == "" then [] else [Char(mode, s[0])] + Chars(mode, s[1..])
  }

  lemma CharsFront(mode: Mode, x: string, pos: nat)
    requires pos < |x|
    ensures Chars(mode, x[..pos + 1]) == [Char(mode, x[0])] + Chars(mode, x[1..][..pos])
  {
    assert x[..pos + 1][1..] == x[1..][..pos];
  }

  lemma {:induction false} ScanStep(ts: Tags, mode: Mode, x: string)
    ensures Scan(ts, mode, x) ==
            match BestAt(Active(ts, mode), x)
            case Some(n) => [Tag(n)] + Scan(ts, After(n.kind), x[|n.text|..])
            case None => if x == "" then [] else [Char(mode, x[0])] + Scan(ts, mode, x[1..])
  {
    hide BestAt;
  }

  lemma {:induction false} FindStep(ns: seq<Needle>, x: string)
    ensures BestAt(ns, x).Some? ==> FindNext(ns, x) == At(0, BestAt(ns, x).value)
    ensures BestAt(ns, x).None? && x == "" ==> FindNext(ns, x) == Nowhere
    ensures BestAt(ns, x).None? && x != "" ==>
              var r := FindNext(ns, x[1..]); FindNext(ns, x) == if r.At? then At(r.pos + 1, r.needle) else Nowhere
  {
    hide BestAt;
  }

  /** The reference scan, one tag at a time. */
  lemma {:induction false} ScanShape(ts: Tags, mode: Mode, x: string)
    ensures Scan(ts, mode, x) ==
            match FindNext(Active(ts, mode), x)
            case At(pos, n) => Chars(mode, x[..pos]) + ([Tag(n)] + Scan(ts, After(n.kind), x[pos + |n.text|..]))
            case Nowhere => Chars(mode, x)
    decreases |x|
  {
    hide BestAt, Scan, FindNext, Active;
    var ns := Active(ts, mode);
    ScanStep(ts, mode, x);
    FindStep(ns, x);
    if BestAt(ns, x).Some? {
      assert x[..0] == "" && Chars(mode, "") == [];
      PrependEmpty(Scan(ts, mode, x));
    } else if x != "" {
      ScanShape(ts, mode, x[1..]);
      var r := FindNext(ns, x[1..]);
      if r.At? {
        var k := r.pos + |r.needle.text|;
        assert x[1..][k..] == x[k + 1..];
        CharsFront(mode, x, r.pos);
        var rest := [Tag(r.needle)] + Scan(ts, After(r.needle.kind), x[k + 1..]);
        Assoc([Char(mode, x[0])], Chars(mode, x[1..][..r.pos]), rest);
      }
    }
  }

  lemma {:induction false} LastRunOfChars(mode: Mode, s: string)
    ensures LastRun(Chars(mode, s)) == s
  {
    if s != "" {
      LastRunOfChars(mode, s[1..]);
      LastRunJoin([Char(mode, s[0])], mode, s[1..]);
      assert LastRun([Char(mode, s[0])]) == [s[0]] by { assert [Char(mode, s[0])][..0] == []; }
    }
  }

  lemma {:induction false} LastRunJoin(ps: seq<Piece>, mode: Mode, s: string)
    ensures LastRun(ps + Chars(mode, s)) == LastRun(ps) + s
    decreases |s|
  {
    if s == "" {
      AppendEmpty(ps);
      AppendEmpty(LastRun(ps));
    } else {
      var more := ps + [Char(mode, s[0])];
      assert more[..|ps|] == ps;
      Assoc(ps, [Char(mode, s[0])], Chars(mode, s[1..]));
      LastRunJoin(more, mode, s[1..]);
      Assoc(LastRun(ps), [s[0]], s[1..]);
      assert [s[0]] + s[1..] == s;
    }
  }

  lemma {:induction false} LastRunBehind(ps: seq<Piece>, n: Needle, qs: seq<Piece>)
    ensures LastRun(ps + ([Tag(n)] + qs)) == LastRun(qs)
    decreases |qs|
  {
    var all := ps + ([Tag(n)] + qs);
    if qs == [] {
      assert all[|all| - 1] == Tag(n);
    } else {
      var k := |qs| - 1;
      assert all[|all| - 1] == qs[k] && all[..|all| - 1] == ps + ([Tag(n)] + qs[..k]);
      LastRunBehind(ps, n, qs[..k]);
    }
  }

  lemma {:induction false} LastRunShape(ts: Tags, mode: Mode, x: string)
    ensures LastRun(Scan(ts, mode, x)) ==
            match FindNext(Active(ts, mode), x)
            case At(pos, n) => LastRun(Scan(ts, After(n.kind), x[pos + |n.text|..]))
            case Nowhere => x
  {
    hide FindNext, Scan, LastRun;
    ScanShape(ts, mode, x);
    match FindNext(Active(ts, mode), x)
    case At(pos, n) => LastRunBehind(Chars(mode, x[..pos]), n, Scan(ts, After(n.kind), x[pos + |n.text|..]));
    case Nowhere => LastRunOfChars(mode, x);
  }

  // ---- What is held back -----------------------------------------------------------------

  /** What a drain holds back is the end of the text behind the last tag, from the hold position on. */
  lemma {:induction false} HeldIs(ts: Tags, mode: Mode, x: string)
    ensures var s := LastRun(Scan(ts, mode, x));
            Drain(ts, mode, x).pending == s[HoldPos(ts, s)..]
    decreases |x|
  {
    hide FindNext, Scan, LastRun, Drain, HoldPos, Result, AddFront;
    LastRunShape(ts, mode, x);
    match FindNext(Active(ts, mode), x)
    case At(pos, n) =>
      DrainTagged(ts, mode, x);
      HeldIs(ts, After(n.kind), x[pos + |n.text|..]);
    case Nowhere => DrainTagless(ts, mode, x);
  }

  /** The last position in `s` where a tag-start character stands within the hold window. */
  ghost predicate LastStart(ts: Tags, s: string, q: nat) {
    Holdable(ts, s, q) && forall j: nat :: Holdable(ts, s, j) ==> j <= q
  }

  /** So nothing is held exactly if there is no such position, and otherwise all that follows the last one. */
  lemma HeldFromLastStart(ts: Tags, mode: Mode, x: string, q: nat)
    ensures var s, pending := LastRun(Scan(ts, mode, x)), Drain(ts, mode, x).pending;
            && (pending == "" <==> forall j: nat :: !Holdable(ts, s, j))
            && (LastStart(ts, s, q) ==> pending == s[q..])
  {
    hide Scan, LastRun, Drain, HoldPos;
    HeldIs(ts, mode, x);
    HoldPosIs(ts, LastRun(Scan(ts, mode, x)));
  }

  /** For a configuration: what is held back after any drain is shorter in bytes than some tag configured. */
  lemma HeldShorterThanTag(pairs: seq<Pair>, mode: Mode, x: string)
    ensures var pending := Drain(TagsOf(pairs), mode, x).pending;
            pending != "" ==> exists s :: IsTagOf(pairs, s) && ByteLen(pending) < ByteLen(s)
  {
    hide Drain, ByteLen, Starts, FindNext;
    var ts, pending := TagsOf(pairs), Drain(TagsOf(pairs), mode, x).pending;
    HeldTail(ts, mode, x);
    if pending != "" {
      assert pending[0..] == pending;
      LongestIs(pairs);
      assert pairs != [];
      var s :| IsTagOf(pairs, s) && ByteLen(s) == Longest(pairs);
    }
  }

  /** More input could complete `s` to a tag. */
  ghost predicate CanBecomeTag(ts: Tags, s: string) {
    exists n :: n in ts.all && s <= n.text && |s| < |n.text|
  }

  /** Some non-empty end of `s` could: what the documentation of the splitter gives as the reason to hold. */
  ghost predicate EndsLikeTag(ts: Tags, s: string) {
    exists k :: 0 <= k < |s| && CanBecomeTag(ts, s[k..])
  }

  /** An end that can become a tag begins at the hold position. */
  lemma TagBeginsAtHold(ts: Tags, s: string, k: nat, n: Needle)
    requires Separable(ts) && n in ts.all && k < |s| && s[k..] <= n.text && |s[k..]| < |n.text|
    ensures HoldPos(ts, s) == k
  {
    hide HoldPos, ByteLen;
    HoldPosIs(ts, s);
    var u, r := s[k..], HoldPos(ts, s);
    assert u[0] == n.text[0] == s[k];
    Shorter(u, n.text);
    assert Holdable(ts, s, k);
    assert forall i :: k <= i < |s| ==> n.text[i - k] == s[i];
  }

  lemma Shorter(a: string, b: string)
    requires a <= b && |a| < |b|
    ensures ByteLen(a) < ByteLen(b)
  {
    assert b == a + b[|a|..];
    ByteLenSplit(a, b[|a|..]);
  }

  /**
   For separable tags, what a drain holds back can still become a tag exactly when the text behind the
   last tag does end like one. Anything else that is held is held for its first character only.
   */
  lemma HeldCanBecomeTag(ts: Tags, mode: Mode, x: string)
    requires Separable(ts)
    ensures var pending := Drain(ts, mode, x).pending;
            pending != "" && CanBecomeTag(ts, pending) <==> EndsLikeTag(ts, LastRun(Scan(ts, mode, x)))
  {
    hide Drain, Scan, LastRun, HoldPos, Separable;
    HeldIs(ts, mode, x);
    var s := LastRun(Scan(ts, mode, x));
    if EndsLikeTag(ts, s) {
      var k :| 0 <= k < |s| && CanBecomeTag(ts, s[k..]);
      var n :| n in ts.all && s[k..] <= n.text && |s[k..]| < |n.text|;
      TagBeginsAtHold(ts, s, k, n);
    }
  }

  /** Such a case: `<x` is held back, and no tag begins with it. */
  lemma HeldForNothing()
    ensures var ts := TagsOf(BuiltinPairs());
            Drain(ts, InText, "<x").pending == "<x" && !CanBecomeTag(ts, "<x")
  {
    hide Drain, HoldPos, TagsOf, FindNext, ByteLen, BuiltinPairs, Starts;
    var ts := TagsOf(BuiltinPairs());
    BuiltinTags();
    HoldPosIs(ts, "<x");
    assert ByteLen("<x") == 2 by { TwoBytes(); }
    assert "<x"[0..] == "<x";
    assert Holdable(ts, "<x", 0);
    assert HoldPos(ts, "<x") == 0;
    assert "<x"[0..] == "<x";
    TooShort(ts.opens, "<x");
    DrainTagless(ts, InText, "<x");
    forall n | n in ts.all ensures !("<x" <= n.text) {
      assert n.text[1] != "<x"[1];
    }
  }

  lemma TwoBytes()
    ensures ByteLen("<x") == 2
  {
    assert "<x"[1..] == "x" && "x"[1..] == "";
  }

  predicate LooksBuiltin(s: string) { |s| >= 7 && s[0] == '<' && s[1] != 'x' }

  lemma BuiltinTags()
    ensures var ts := TagsOf(BuiltinPairs());
            && (forall n :: n in ts.all ==> LooksBuiltin(n.text)) && (forall n :: n in ts.opens ==> n in ts.all)
            && Starts(ts, '<') && !Starts(ts, 'x') && ts.longest > 2
  {
    hide Longest, ByteLen, Needles, BuiltinPairs, LooksBuiltin;
    TagsOfValid(BuiltinPairs());
    BuiltinNeedles();
    var ts := TagsOf(BuiltinPairs());
    assert LooksBuiltin("<think>") && LooksBuiltin("</think>") && LooksBuiltin("<thinking>") &&
      LooksBuiltin("</thinking>") by {
      AllLookBuiltin();
    }
    assert ts.all[0] in ts.all;
    LengthsDiffer(ts.all[0].text);
    StartChars(ts);
  }

  lemma AllLookBuiltin()
    ensures LooksBuiltin("<think>") && LooksBuiltin("</think>") && LooksBuiltin("<thinking>") &&
            LooksBuiltin("</thinking>")
  {
  }

  lemma StartChars(ts: Tags)
    requires ts.all != [] && forall n :: n in ts.all ==> LooksBuiltin(n.text)
    ensures Starts(ts, '<') && !Starts(ts, 'x') && |ts.all[0].text| >= 7
  {
    assert ts.all[0] in ts.all;
  }

  lemma LengthsDiffer(s: string)
    ensures ByteLen(s) >= |s|
  {
  }

  lemma {:induction false} TooShort(ns: seq<Needle>, x: string)
    requires forall n :: n in ns ==> |n.text| > |x|
    ensures FindNext(ns, x).Nowhere?
    decreases |x|
  {
    BestAtMember(ns, x);
    if x != "" {
      TooShort(ns, x[1..]);
    }
  }

  // ---- For which tags the cutting does not matter ----------------------------------------

  /** A buffer that is one active tag: the mode changes and nothing else is left of it. */
  lemma DrainTagOnly(ts: Tags, mode: Mode, x: string)
    requires exists n :: n in Active(ts, mode) && n.text == x != ""
    ensures var h := Held(Drain(ts, mode, x));
            && h == Fed(Tally("", "", h.sum.mode, 1), "")
            && exists n :: n in Active(ts, mode) && h.sum.mode == After(n.kind)
  {
    hide BestAt, Drain, Result;
    var ns := Active(ts, mode);
    BestAtMember(ns, x);
    var b := BestAt(ns, x).value;
    assert b.text == x && x[|x|..] == "" && x[..0] == "";
    DrainTagged(ts, mode, x);
    NothingDrained(ts, After(b.kind));
  }

  lemma NothingDrained(ts: Tags, mode: Mode)
    ensures Drain(ts, mode, "").pending == "" && Result(Drain(ts, mode, "")) == Tally("", "", mode, 0)
  {
    hide BestAt, Drain, Result, HoldPos;
    DrainTagless(ts, mode, "");
    AddNothing(mode, Tally("", "", mode, 0));
  }

  /** Draining something leaves something. */
  lemma DrainLeavesSomething(ts: Tags, mode: Mode, x: string)
    requires x != ""
    ensures var h := Held(Drain(ts, mode, x)); h.sum.tags > 0 || h.sum.text + h.sum.reasoning != "" || h.pending != ""
  {
    hide FindNext, Drain, Result, HoldPos;
    if FindNext(Active(ts, mode), x).At? {
      DrainTagged(ts, mode, x);
    } else {
      DrainTagless(ts, mode, x);
    }
  }

  /** Behind an open tag, feeding `a` and then `b` differs from feeding `a + b`. */
  ghost predicate CutMatters(ts: Tags, o: Needle, a: string, b: string) {
    FeedAll(ts, [o.text] + [a] + [b]) != FeedAll(ts, [o.text] + [a + b])
  }

  lemma FedTwice(ts: Tags, a: string, b: string)
    ensures FeedAll(ts, [a] + [b]) == Feed(ts, Feed(ts, Fresh, a), b)
  {
    hide Drain, Result;
    assert [a][..0] == [];
    assert FeedAll(ts, [a]) == Feed(ts, FeedAll(ts, []), a);
    assert ([a] + [b])[..1] == [a];
  }

  lemma FedThrice(ts: Tags, o: string, a: string, b: string)
    ensures FeedAll(ts, [o] + [a] + [b]) == Feed(ts, Feed(ts, Feed(ts, Fresh, o), a), b)
  {
    hide Drain, Result;
    assert ([o] + [a] + [b])[..2] == [o] + [a];
    FedTwice(ts, o, a);
  }

  /** An open tag alone brings the splitter into reasoning with nothing held. */
  lemma OpenTagFed(ts: Tags, o: Needle)
    requires Valid(ts) && o in ts.opens
    ensures Feed(ts, Fresh, o.text) == Fed(Tally("", "", InReasoning, 1), "")
  {
    hide Drain, Result;
    assert "" + o.text == o.text;
    DrainTagOnly(ts, InText, o.text);
  }

  lemma WholeTagFed(ts: Tags, n: Needle)
    requires Valid(ts) && n in ts.all
    ensures var f := Feed(ts, Fed(Tally("", "", InReasoning, 1), ""), n.text);
            f == Fed(Tally("", "", f.sum.mode, 2), "")
  {
    hide Drain, Result;
    assert "" + n.text == n.text;
    DrainTagOnly(ts, InReasoning, n.text);
  }

  /** With one tag a proper prefix of another, cutting behind the shorter one matches the shorter. */
  lemma PrefixTagsBreakChunking(ts: Tags, o: Needle, m: Needle, n: Needle)
    requires Valid(ts) && o in ts.opens && m in ts.all && n in ts.all && m.text <= n.text && m.text != n.text
    ensures CutMatters(ts, o, m.text, n.text[|m.text|..])
  {
    hide Drain, Result, FeedAll;
    var a, b := m.text, n.text[|m.text|..];
    assert a + b == n.text;
    OpenTagFed(ts, o);
    FedTwice(ts, o.text, n.text);
    FedThrice(ts, o.text, a, b);
    WholeTagFed(ts, n);
    WholeTagFed(ts, m);
    var f := Feed(ts, Feed(ts, Fresh, o.text), a);
    assert "" + b == b;
    DrainLeavesSomething(ts, f.sum.mode, b);
  }

  /** A start character strictly inside a tag: cut behind it, and the front of the tag is emitted. */
  lemma FrontEmitted(ts: Tags, n: Needle, k: nat)
    requires Valid(ts) && n in ts.all && 1 <= k < |n.text| - 1 && Starts(ts, n.text[k])
    ensures var x := n.text[..k + 1]; var r := FindNext(ts.all, x);
            (r.At? && r.pos == 0) || Result(Drain(ts, InReasoning, x)).reasoning != ""
  {
    hide FindNext, Drain, Result, HoldPos, ByteLen;
    var x := n.text[..k + 1];
    if FindNext(ts.all, x).At? {
      DrainTagged(ts, InReasoning, x);
    } else {
      DrainTagless(ts, InReasoning, x);
      HoldPosIs(ts, x);
      assert x[k..] == [n.text[k]] == n.text[k..k + 1];
      assert n.text[k..] == [n.text[k]] + n.text[k + 1..];
      Shorter(x[k..], n.text[k..]);
      ByteLenSuffix(n.text, 0, k);
      assert n.text[0..] == n.text;
      assert Holdable(ts, x, k);
    }
  }

  lemma RecurringStartBreaksChunking(ts: Tags, o: Needle, n: Needle, k: nat) returns (j: nat)
    requires Valid(ts) && o in ts.opens && n in ts.all && 1 <= k < |n.text| - 1 && Starts(ts, n.text[k])
    ensures j <= |n.text| && CutMatters(ts, o, n.text[..j], n.text[j..])
  {
    hide Drain, Result, FeedAll, FindNext, Starts;
    var x := n.text[..k + 1];
    FrontEmitted(ts, n, k);
    var r := FindNext(ts.all, x);
    if r.At? && r.pos == 0 {
      FoundIsPrefix(ts.all, x);
      PrefixTagsBreakChunking(ts, o, r.needle, n);
      j := |r.needle.text|;
      assert n.text[..j] == r.needle.text;
    } else {
      j := k + 1;
      var a, b := n.text[..j], n.text[j..];
      assert a + b == n.text && "" + a == a;
      OpenTagFed(ts, o);
      FedTwice(ts, o.text, n.text);
      FedThrice(ts, o.text, a, b);
      WholeTagFed(ts, n);
    }
  }

  lemma FoundIsPrefix(ns: seq<Needle>, x: string)
    ensures var r := FindNext(ns, x); r.At? && r.pos == 0 ==> r.needle in ns && r.needle.text <= x
  {
    BestAtMember(ns, x);
  }

  /** The same content is split the same way, however it is cut. */
  ghost predicate CuttingIrrelevant(ts: Tags) {
    forall chunks :: FeedAll(ts, chunks) == Held(Drain(ts, InText, Concat(chunks)))
  }

  lemma CutShown(ts: Tags, o: Needle, a: string, b: string)
    requires CutMatters(ts, o, a, b)
    ensures !CuttingIrrelevant(ts)
  {
    hide FeedAll, Drain;
    var c, d := [o.text] + [a] + [b], [o.text] + [a + b];
    assert Concat(c) == Concat(d) by { SameText(o.text, a, b); }
  }

  lemma SameText(o: string, a: string, b: string)
    ensures Concat([o] + [a] + [b]) == Concat([o] + [a + b])
  {
    assert ([o] + [a] + [b])[..2] == [o] + [a] && ([o] + [a])[..1] == [o] && [o][..0] == [];
    assert ([o] + [a + b])[..1] == [o];
    Assoc("" + o, a, b);
  }

  lemma SomeOpen(pairs: seq<Pair>)
    requires Needles(pairs, InReasoning) != []
    ensures Needles(pairs, InText) != []
  {
  }

  /** For every configuration of tags: the cutting does not matter if and only if they are separable. */
  lemma SeparableExactly(pairs: seq<Pair>)
    ensures CuttingIrrelevant(TagsOf(pairs)) <==> Separable(TagsOf(pairs))
  {
    hide TagsOf, CuttingIrrelevant, FeedAll, Drain, Starts, CutMatters;
    var ts := TagsOf(pairs);
    TagsOfValid(pairs);
    if Separable(ts) {
      assert CuttingIrrelevant(ts) by { Enough(ts); }
    } else if n, k :| n in ts.all && 1 <= k < |n.text| - 1 && Starts(ts, n.text[k]) {
      var o := AnOpen(pairs);
      var j := RecurringStartBreaksChunking(ts, o, n, k);
      CutShown(ts, o, n.text[..j], n.text[j..]);
    } else {
      var m, n :| m in ts.all && n in ts.all && m.text <= n.text && m.text != n.text;
      var o := AnOpen(pairs);
      PrefixTagsBreakChunking(ts, o, m, n);
      CutShown(ts, o, m.text, n.text[|m.text|..]);
    }
  }

  lemma Enough(ts: Tags)
    requires Separable(ts)
    ensures CuttingIrrelevant(ts)
  {
    hide Separable, FeedAll, Drain, Concat;
    forall chunks ensures FeedAll(ts, chunks) == Held(Drain(ts, InText, Concat(chunks))) {
      ChunkingIrrelevant(ts, chunks);
    }
  }

  lemma AnOpen(pairs: seq<Pair>) returns (o: Needle)
    requires TagsOf(pairs).all != []
    ensures o in TagsOf(pairs).opens
  {
    SomeOpen(pairs);
    o := TagsOf(pairs).opens[0];
  }
}
