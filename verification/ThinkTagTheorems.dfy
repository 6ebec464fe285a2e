/**
 The laws of the splitter. One pass agrees with the reference scanner for every tag list
 (`DrainIsScan`); for separable tags, feeding in pieces agrees with feeding at once however the
 input is cut (`ChunkingIrrelevant`).
 */
module ThinkTagTheorems {
  import opened Wrappers
  import opened ThinkTags

  // ---- One pass agrees with the reference scanner ----------------------------------------

  function OneMore(t: Tally): Tally { t.(tags := t.tags + 1) }

  lemma AddFrontTwice(mode: Mode, a: string, b: string, t: Tally)
    ensures AddFront(mode, a, AddFront(mode, b, t)) == AddFront(mode, a + b, t)
  {
    assert a + (b + t.text) == (a + b) + t.text;
    assert a + (b + t.reasoning) == (a + b) + t.reasoning;
  }

  lemma AddNothing(mode: Mode, t: Tally)
    ensures AddFront(mode, "", t) == t
  {
    assert "" + t.text == t.text && "" + t.reasoning == t.reasoning;
  }

  lemma {:induction false} ScanUnfold(ts: Tags, mode: Mode, x: string)
    ensures Count(mode, Scan(ts, mode, x)) ==
            match BestAt(Active(ts, mode), x)
            case Some(n) => OneMore(Count(After(n.kind), Scan(ts, After(n.kind), x[|n.text|..])))
            case None =>
              if x == "" then Tally("", "", mode, 0)
              else AddFront(mode, [x[0]], Count(mode, Scan(ts, mode, x[1..])))
  {
    match BestAt(Active(ts, mode), x)
    case Some(n) => assert Scan(ts, mode, x)[1..] == Scan(ts, After(n.kind), x[|n.text|..]);
    case None => if x != "" { assert Scan(ts, mode, x)[1..] == Scan(ts, mode, x[1..]); }
  }

  /** The scanner walks to the next tag, emitting on one side, and goes on behind it. */
  lemma {:induction false} ScanToTag(ts: Tags, mode: Mode, x: string)
    ensures Count(mode, Scan(ts, mode, x)) ==
            match FindNext(Active(ts, mode), x)
            case At(pos, n) =>
              var to := After(n.kind);
              AddFront(mode, x[..pos], OneMore(Count(to, Scan(ts, to, x[pos + |n.text|..]))))
            case Nowhere => AddFront(mode, x, Tally("", "", mode, 0))
    decreases |x|
  {
    hide Count, Scan, AddFront, OneMore, BestAt;
    var ns := Active(ts, mode);
    ScanUnfold(ts, mode, x);
    match BestAt(ns, x)
    case Some(n) =>
      assert x[..0] == "";
      AddNothing(mode, OneMore(Count(After(n.kind), Scan(ts, After(n.kind), x[|n.text|..]))));
    case None =>
      if x == "" {
        AddNothing(mode, Tally("", "", mode, 0));
      } else {
        ScanToTag(ts, mode, x[1..]);
        match FindNext(ns, x[1..])
        case At(pos, n) =>
          var to, k := After(n.kind), pos + |n.text|;
          assert x[1..][k..] == x[k + 1..];
          assert x[..pos + 1] == [x[0]] + x[1..][..pos];
          AddFrontTwice(mode, [x[0]], x[1..][..pos], OneMore(Count(to, Scan(ts, to, x[k + 1..]))));
        case Nowhere =>
          assert x == [x[0]] + x[1..];
          AddFrontTwice(mode, [x[0]], x[1..], Tally("", "", mode, 0));
      }
  }

  lemma CollectEmit(mode: Mode, s: string, evs: seq<ThinkEvent>, t: Tally)
    ensures Collect(Emit(mode, s) + evs, t) == AddFront(mode, s, Collect(evs, t))
  {
    if s == "" {
      assert Emit(mode, s) + evs == evs;
      AddNothing(mode, Collect(evs, t));
    } else {
      assert (Emit(mode, s) + evs)[1..] == evs;
    }
  }

  lemma CollectOneMore(evs: seq<ThinkEvent>, t: Tally)
    ensures Collect(evs, OneMore(t)) == OneMore(Collect(evs, t))
  {
  }

  lemma PrependTally(mode: Mode, s: string, d: Drained)
    ensures Flushed(Prepend(Emit(mode, s), d)) == AddFront(mode, s, OneMore(Flushed(d)))
    ensures Result(Prepend(Emit(mode, s), d)) == AddFront(mode, s, OneMore(Result(d)))
  {
    hide Emit, AddFront, Collect;
    var t := Tally("", "", d.mode, d.tags);
    var u := AddFront(d.mode, d.pending, t);
    assert AddFront(d.mode, d.pending, OneMore(t)) == OneMore(u) by { AddFrontOneMore(d.mode, d.pending, t); }
    CollectEmit(mode, s, d.events, OneMore(t));
    CollectEmit(mode, s, d.events, OneMore(u));
    CollectOneMore(d.events, t);
    CollectOneMore(d.events, u);
  }

  lemma AddFrontOneMore(mode: Mode, s: string, t: Tally)
    ensures AddFront(mode, s, OneMore(t)) == OneMore(AddFront(mode, s, t))
  {
  }

  lemma SettleTally(ts: Tags, mode: Mode, x: string)
    ensures Flushed(Settle(ts, mode, x)) == AddFront(mode, x, Tally("", "", mode, 0))
    ensures Result(Settle(ts, mode, x)) == AddFront(mode, x[..HoldPos(ts, x)], Tally("", "", mode, 0))
  {
    hide Emit, AddFront, HoldPos;
    var p := HoldPos(ts, x);
    var t := Tally("", "", mode, 0);
    var tail: seq<ThinkEvent> := if p < |x| then [Pending] else [];
    CollectEmit(mode, x[..p], tail, t);
    CollectEmit(mode, x[..p], tail, AddFront(mode, x[p..], t));
    AddFrontTwice(mode, x[..p], x[p..], t);
    assert x[..p] + x[p..] == x;
  }

  /**
   For every tag list, one drain agrees with the reference scanner: same tags matched, same final
   mode, and each side carries what the scanner puts there once the held tail is flushed.
   */
  lemma {:induction false} DrainIsScan(ts: Tags, mode: Mode, x: string)
    ensures Flushed(Drain(ts, mode, x)) == Count(mode, Scan(ts, mode, x))
    decreases |x|
  {
    hide FindNext, Count, Scan, AddFront, Flushed, Settle, Emit, Prepend;
    ScanToTag(ts, mode, x);
    match FindNext(Active(ts, mode), x)
    case At(pos, n) =>
      var rest := x[pos + |n.text|..];
      PrependTally(mode, x[..pos], Drain(ts, After(n.kind), rest));
      DrainIsScan(ts, After(n.kind), rest);
    case Nowhere => SettleTally(ts, mode, x);
  }

  // ---- The held tail ---------------------------------------------------------------------

  lemma ByteLenSplit(a: string, b: string)
    ensures ByteLen(a + b) == ByteLen(a) + ByteLen(b)
  {
    if a == "" {
      assert a + b == b;
    } else {
      assert (a + b)[1..] == a[1..] + b;
    }
  }

  lemma ByteLenSuffix(x: string, p: nat, q: nat)
    requires p <= q <= |x|
    ensures ByteLen(x[q..]) <= ByteLen(x[p..])
  {
    ByteLenSplit(x[p..q], x[q..]);
    assert x[p..] == x[p..q] + x[q..];
  }

  /** A tag-start character stands at `q`, within the window that may be held back. */
  predicate Holdable(ts: Tags, x: string, q: nat) {
    q < |x| && Starts(ts, x[q]) && ByteLen(x[q..]) < ts.longest
  }

  /** The held tail begins at the last such position, if any. */
  lemma HoldPosFromIs(ts: Tags, x: string, p: nat)
    requires p <= |x|
    requires forall q :: p <= q < |x| ==> !Holdable(ts, x, q)
    ensures var r := HoldPosFrom(ts, x, p);
            (r < |x| ==> Holdable(ts, x, r)) && forall q: nat :: Holdable(ts, x, q) ==> q <= r < |x|
  {
    if p > 0 {
      if ts.longest <= ByteLen(x[p - 1..]) {
        forall q | 0 <= q < p ensures !Holdable(ts, x, q) {
          ByteLenSuffix(x, q, p - 1);
        }
      } else if !Starts(ts, x[p - 1]) {
        HoldPosFromIs(ts, x, p - 1);
      }
    }
  }

  lemma HoldPosIs(ts: Tags, x: string)
    ensures var r := HoldPos(ts, x);
            (r < |x| ==> Holdable(ts, x, r)) && forall q: nat :: Holdable(ts, x, q) ==> q <= r < |x|
  {
    HoldPosFromIs(ts, x, |x|);
  }

  lemma {:induction false} FindNextDrop(ns: seq<Needle>, x: string, p: nat)
    requires p <= |x| && FindNext(ns, x).Nowhere?
    ensures FindNext(ns, x[p..]).Nowhere?
  {
    if p > 0 {
      FindNextDrop(ns, x[1..], p - 1);
      assert x[1..][p - 1..] == x[p..];
    }
  }

  /** After any drain the held tail is short, begins with a tag's first character, and holds no tag. */
  lemma {:induction false} HeldTail(ts: Tags, mode: Mode, x: string)
    ensures var d := Drain(ts, mode, x);
            && (d.pending != "" ==> Holdable(ts, d.pending, 0))
            && FindNext(Active(ts, d.mode), d.pending).Nowhere?
    decreases |x|
  {
    hide FindNext, HoldPos, Drain, Result, AddFront, OneMore, Starts, ByteLen;
    match FindNext(Active(ts, mode), x)
    case At(pos, n) =>
      DrainTagged(ts, mode, x);
      HeldTail(ts, After(n.kind), x[pos + |n.text|..]);
    case Nowhere =>
      DrainTagless(ts, mode, x);
      HoldPosIs(ts, x);
      FindNextDrop(Active(ts, mode), x, HoldPos(ts, x));
      var p := HoldPos(ts, x);
      assert x[p..][0..] == x[p..];
  }

  // ---- Feeding in pieces agrees with feeding at once -------------------------------------

  /** A separable tag reaches at most up to a tag-start character. */
  lemma TagStopsAt(ts: Tags, n: Needle, x: string, k: nat)
    requires Separable(ts) && n in ts.all && n.text <= x
    requires 1 <= k < |x| && Starts(ts, x[k])
    ensures |n.text| <= k + 1
  {
    var t := n.text;
    assert t == x[..|t|];
    assert forall i :: 0 <= i < |t| ==> t[i] == x[i];
  }

  /** Text behind a tag does not change which tag it is. */
  lemma BestAtExtends(ns: seq<Needle>, x: string, y: string)
    requires forall n :: n in ns && n.text <= x + y ==> n.text <= x
    ensures BestAt(ns, x + y) == BestAt(ns, x)
  {
    if ns != [] {
      var n := ns[|ns| - 1];
      assert n in ns;
      BestAtExtends(ns[..|ns| - 1], x, y);
      assert n.text <= x ==> n.text <= x + y;
    }
  }

  lemma FoundIsActive(ns: seq<Needle>, x: string)
    ensures var r := FindNext(ns, x); r.At? ==> r.needle in ns && x[r.pos] == r.needle.text[0]
  {
    BestAtMember(ns, x);
    if x != "" && BestAt(ns, x).None? {
      FoundIsActive(ns, x[1..]);
    }
  }

  lemma FoundStarts(ts: Tags, mode: Mode, x: string)
    requires Valid(ts) && FindNext(Active(ts, mode), x).At?
    ensures var r := FindNext(Active(ts, mode), x); r.needle in ts.all && Starts(ts, x[r.pos])
  {
    hide FindNext;
    FoundIsActive(Active(ts, mode), x);
  }

  lemma FirstTagBounds(ts: Tags, w: string, b: Needle, n: Needle)
    requires Separable(ts) && b in ts.all && n in ts.all && b.text <= w && n.text <= w
    ensures |n.text| <= |b.text|
  {
    hide Starts;
    assert |b.text| < |n.text| ==> b.text <= n.text;
  }

  /** Once a tag is found in `x`, no tag that begins at its front runs over its end. */
  lemma NoLongerTag(ts: Tags, mode: Mode, x: string, y: string, n: Needle)
    requires Separable(ts) && FindNext(Active(ts, mode), x).At?
    requires n in Active(ts, mode) && n.text <= x + y
    ensures n.text <= x
  {
    FoundStarts(ts, mode, x);
    assert n in ts.all;
    hide BestAt, Separable, Starts;
    var r := FindNext(Active(ts, mode), x);
    var pos, b, w := r.pos, r.needle, x + y;
    assert w[pos] == x[pos];
    if pos == 0 {
      FirstTagBounds(ts, w, b, n);
    } else {
      TagStopsAt(ts, n, w, pos);
    }
  }

  lemma BestAtStable(ts: Tags, mode: Mode, x: string, y: string)
    requires Separable(ts) && FindNext(Active(ts, mode), x).At?
    ensures BestAt(Active(ts, mode), x + y) == BestAt(Active(ts, mode), x)
  {
    hide BestAt, FindNext, Separable, Starts;
    var ns := Active(ts, mode);
    forall n | n in ns && n.text <= x + y ensures n.text <= x {
      NoLongerTag(ts, mode, x, y, n);
    }
    BestAtExtends(ns, x, y);
  }

  /** A tag found in `x` is still the next tag once more input follows. */
  lemma {:induction false} FindNextStable(ts: Tags, mode: Mode, x: string, y: string)
    requires Separable(ts) && FindNext(Active(ts, mode), x).At?
    ensures FindNext(Active(ts, mode), x + y) == FindNext(Active(ts, mode), x)
    decreases |x|
  {
    var ns := Active(ts, mode);
    hide BestAt, Separable, Active;
    BestAtStable(ts, mode, x, y);
    if BestAt(ns, x).None? {
      assert (x + y)[1..] == x[1..] + y;
      FindNextStable(ts, mode, x[1..], y);
    }
  }

  /** Nothing that begins inside `f` is a tag when `z` follows. */
  ghost predicate Dead(ns: seq<Needle>, f: string, z: string) {
    forall k :: 0 <= k < |f| ==> BestAt(ns, f[k..] + z).None?
  }

  /** Dead text in front only shifts the next tag. */
  lemma {:induction false} FindNextShift(ns: seq<Needle>, f: string, z: string)
    requires Dead(ns, f, z)
    ensures FindNext(ns, f + z) ==
            match FindNext(ns, z) { case At(p, n) => At(p + |f|, n) case Nowhere => Nowhere }
    decreases |f|
  {
    hide BestAt;
    if f == "" {
      assert f + z == z;
    } else {
      assert f[0..] == f;
      assert (f + z)[1..] == f[1..] + z;
      forall k | 0 <= k < |f[1..]| ensures BestAt(ns, f[1..][k..] + z).None? {
        assert f[1..][k..] == f[k + 1..];
      }
      FindNextShift(ns, f[1..], z);
    }
  }

  /** A tag that begins at `k` in a tagless buffer, before the held tail, cannot be completed. */
  lemma CannotComplete(ts: Tags, mode: Mode, x: string, y: string, k: nat, n: Needle)
    requires Separable(ts) && FindNext(Active(ts, mode), x).Nowhere?
    requires k < HoldPos(ts, x) && n in Active(ts, mode)
    ensures !(n.text <= x[k..] + y)
  {
    hide HoldPos, FindNext, BestAt;
    var p, w := HoldPos(ts, x), x[k..] + y;
    HoldPosIs(ts, x);
    assert n in ts.all;
    if n.text <= w {
      assert n.text[0] == w[0] == x[k];
      if p < |x| {
        assert w[p - k] == x[p];
        TagStopsAt(ts, n, w, p - k);
      } else {
        assert !Holdable(ts, x, k);
        TooLong(n.text, x[k..], y);
      }
      FindNextDrop(Active(ts, mode), x, k);
      NowhereHere(Active(ts, mode), x[k..], n);
    }
  }

  lemma TooLong(t: string, a: string, b: string)
    requires t <= a + b && ByteLen(t) <= ByteLen(a)
    ensures t <= a
  {
    if |a| < |t| {
      var c := t[|a|..];
      assert t == a + c;
      ByteLenSplit(a, c);
    }
  }

  lemma NowhereHere(ns: seq<Needle>, x: string, n: Needle)
    requires FindNext(ns, x).Nowhere? && n in ns && n.text != ""
    ensures !(n.text <= x)
  {
    BestAtMember(ns, x);
  }

  /** What a drain emits from a tagless buffer is dead. */
  lemma EmittedIsDead(ts: Tags, mode: Mode, x: string, y: string)
    requires Separable(ts) && FindNext(Active(ts, mode), x).Nowhere?
    ensures var p := HoldPos(ts, x); Dead(Active(ts, mode), x[..p], x[p..] + y)
  {
    hide HoldPos, FindNext, BestAt, Separable;
    var ns, p := Active(ts, mode), HoldPos(ts, x);
    forall k | 0 <= k < p ensures BestAt(ns, x[..p][k..] + (x[p..] + y)).None? {
      var w := x[k..] + y;
      assert x[..p][k..] + (x[p..] + y) == w;
      BestAtMember(ns, w);
      forall n | n in ns ensures !(n.text <= w) {
        CannotComplete(ts, mode, x, y, k, n);
      }
    }
  }

  lemma HoldableShift(ts: Tags, x: string, y: string, p: nat, k: nat)
    requires p <= k && p <= |x|
    ensures Holdable(ts, x + y, k) <==> Holdable(ts, x[p..] + y, k - p)
  {
    hide Starts, ByteLen;
    var w, z := x + y, x[p..] + y;
    if k < |w| {
      assert w[k] == z[k - p] && w[k..] == z[k - p..];
    }
  }

  lemma HoldableEarlier(ts: Tags, x: string, y: string, k: nat)
    requires k < |x| && Holdable(ts, x + y, k)
    ensures Holdable(ts, x, k)
  {
    hide Starts, ByteLen;
    assert (x + y)[k..] == x[k..] + y;
    ByteLenSplit(x[k..], y);
  }

  lemma HoldableLater(ts: Tags, x: string, y: string, k: nat, p: nat)
    requires k <= p < |x| && Holdable(ts, x + y, k) && Holdable(ts, x, p)
    ensures Holdable(ts, x + y, p)
  {
    hide Starts, ByteLen;
    ByteLenSuffix(x + y, k, p);
  }

  /** The held tail of `x + y` is the held tail of what `x` held followed by `y`. */
  lemma HoldPosShift(ts: Tags, x: string, y: string)
    ensures var p := HoldPos(ts, x); HoldPos(ts, x + y) == p + HoldPos(ts, x[p..] + y)
  {
    hide HoldPos, Holdable;
    var p := HoldPos(ts, x);
    var z, w := x[p..] + y, x + y;
    HoldPosIs(ts, x);
    HoldPosIs(ts, z);
    HoldPosIs(ts, w);
    var q, r := HoldPos(ts, w), HoldPos(ts, z);
    HoldableShift(ts, x, y, p, p + r);
    if p <= q {
      HoldableShift(ts, x, y, p, q);
    } else {
      HoldableEarlier(ts, x, y, q);
      HoldableLater(ts, x, y, q, p);
    }
  }

  /** What a run of feeds has put on each side, and what the accumulator still holds. */
  datatype Fed = Fed(sum: Tally, pending: string)

  function Then(a: Tally, b: Tally): Tally {
    Tally(a.text + b.text, a.reasoning + b.reasoning, b.mode, a.tags + b.tags)
  }

  function Held(d: Drained): Fed { Fed(Result(d), d.pending) }

  /** One `feed` call, its events appended to those already delivered. */
  function Feed(ts: Tags, f: Fed, delta: string): Fed {
    var d := Drain(ts, f.sum.mode, f.pending + delta);
    Fed(Then(f.sum, Result(d)), d.pending)
  }

  lemma ThenAddFront(mode: Mode, s: string, a: Tally, b: Tally)
    ensures Then(AddFront(mode, s, OneMore(a)), b) == AddFront(mode, s, OneMore(Then(a, b)))
    ensures Then(AddFront(mode, s, a), b) == AddFront(mode, s, Then(a, b))
  {
    assert (s + a.text) + b.text == s + (a.text + b.text);
    assert (s + a.reasoning) + b.reasoning == s + (a.reasoning + b.reasoning);
  }

  lemma ThenBlank(mode: Mode, b: Tally)
    ensures Then(Tally("", "", mode, 0), b) == b
  {
    assert "" + b.text == b.text && "" + b.reasoning == b.reasoning;
  }

  lemma {:induction false} DrainTagged(ts: Tags, mode: Mode, x: string)
    requires FindNext(Active(ts, mode), x).At?
    ensures var r := FindNext(Active(ts, mode), x);
            var d := Drain(ts, After(r.needle.kind), x[r.pos + |r.needle.text|..]);
            && Result(Drain(ts, mode, x)) == AddFront(mode, x[..r.pos], OneMore(Result(d)))
            && Drain(ts, mode, x).pending == d.pending && Drain(ts, mode, x).mode == d.mode
  {
    hide FindNext, AddFront, Result, Emit;
    var r := FindNext(Active(ts, mode), x);
    PrependTally(mode, x[..r.pos], Drain(ts, After(r.needle.kind), x[r.pos + |r.needle.text|..]));
  }

  lemma {:induction false} DrainTagless(ts: Tags, mode: Mode, x: string)
    requires FindNext(Active(ts, mode), x).Nowhere?
    ensures Result(Drain(ts, mode, x)) == AddFront(mode, x[..HoldPos(ts, x)], Tally("", "", mode, 0))
    ensures Drain(ts, mode, x).pending == x[HoldPos(ts, x)..] && Drain(ts, mode, x).mode == mode
  {
    hide FindNext, AddFront, Result, Emit, HoldPos;
    SettleTally(ts, mode, x);
  }

  lemma ResultMode(d: Drained)
    ensures Result(d).mode == d.mode
  {
    CollectMode(d.events, Tally("", "", d.mode, d.tags));
  }

  lemma CollectMode(evs: seq<ThinkEvent>, t: Tally)
    ensures Collect(evs, t).mode == t.mode
  {
  }

  /** Draining `x + y` at once equals draining `x`, then draining what it held followed by `y`. */
  lemma {:induction false} DrainSplit(ts: Tags, mode: Mode, x: string, y: string)
    requires Separable(ts)
    ensures Held(Drain(ts, mode, x + y)) == Feed(ts, Held(Drain(ts, mode, x)), y)
    decreases |x|
  {
    hide FindNext, Drain, Result, AddFront, Then, Separable, HoldPos;
    var r := FindNext(Active(ts, mode), x);
    ResultMode(Drain(ts, mode, x));
    if r.At? {
      var to, k := After(r.needle.kind), r.pos + |r.needle.text|;
      FindNextStable(ts, mode, x, y);
      assert (x + y)[k..] == x[k..] + y && (x + y)[..r.pos] == x[..r.pos];
      DrainTagged(ts, mode, x);
      DrainTagged(ts, mode, x + y);
      DrainSplit(ts, to, x[k..], y);
      var d := Drain(ts, to, x[k..]);
      ResultMode(d);
      ThenAddFront(mode, x[..r.pos], Result(d), Result(Drain(ts, d.mode, d.pending + y)));
    } else {
      DrainSplitTagless(ts, mode, x, y);
    }
  }

  lemma {:induction false} DrainSplitTagless(ts: Tags, mode: Mode, x: string, y: string)
    requires Separable(ts) && FindNext(Active(ts, mode), x).Nowhere?
    ensures Held(Drain(ts, mode, x + y)) == Feed(ts, Held(Drain(ts, mode, x)), y)
  {
    hide FindNext, Drain, Result, AddFront, Then, Separable, HoldPos, Dead;
    var p := HoldPos(ts, x);
    var f, z := x[..p], x[p..] + y;
    assert x + y == f + z;
    EmittedIsDead(ts, mode, x, y);
    FindNextShift(Active(ts, mode), f, z);
    DrainTagless(ts, mode, x);
    ResultMode(Drain(ts, mode, x));
    DrainShift(ts, mode, x, y);
    ThenAddFront(mode, f, Tally("", "", mode, 0), Result(Drain(ts, mode, z)));
    ThenBlank(mode, Result(Drain(ts, mode, z)));
  }

  /** Dead text in front of a buffer is emitted in front of what the rest of the buffer gives. */
  lemma {:induction false} DrainShift(ts: Tags, mode: Mode, x: string, y: string)
    requires var p := HoldPos(ts, x);
             FindNext(Active(ts, mode), x + y) ==
             match FindNext(Active(ts, mode), x[p..] + y) { case At(q, n) => At(q + p, n) case Nowhere => Nowhere }
    ensures var p := HoldPos(ts, x);
            && Result(Drain(ts, mode, x + y)) == AddFront(mode, x[..p], Result(Drain(ts, mode, x[p..] + y)))
            && Drain(ts, mode, x + y).pending == Drain(ts, mode, x[p..] + y).pending
  {
    hide FindNext, Drain, Result, AddFront, HoldPos;
    var p := HoldPos(ts, x);
    var f, z := x[..p], x[p..] + y;
    assert x + y == f + z;
    var r := FindNext(Active(ts, mode), z);
    if r.At? {
      DrainTagged(ts, mode, z);
      DrainTagged(ts, mode, f + z);
      var k := r.pos + |r.needle.text|;
      assert (f + z)[k + p..] == z[k..] && (f + z)[..r.pos + p] == f + z[..r.pos];
      AddFrontTwice(mode, f, z[..r.pos], OneMore(Result(Drain(ts, After(r.needle.kind), z[k..]))));
    } else {
      DrainTagless(ts, mode, z);
      DrainTagless(ts, mode, f + z);
      HoldPosShift(ts, x, y);
      var q := HoldPos(ts, z);
      assert (f + z)[..p + q] == f + z[..q] && (f + z)[p + q..] == z[q..];
      AddFrontTwice(mode, f, z[..q], Tally("", "", mode, 0));
    }
  }

  const Fresh := Fed(Tally("", "", InText, 0), "")

  function FeedAll(ts: Tags, chunks: seq<string>): Fed {
    if chunks == [] then Fresh else Feed(ts, FeedAll(ts, chunks[..|chunks| - 1]), chunks[|chunks| - 1])
  }

  function Concat(chunks: seq<string>): string {
    if chunks == [] then "" else Concat(chunks[..|chunks| - 1]) + chunks[|chunks| - 1]
  }

  /**
   However a content string is cut into chunks, feeding them in order gives the text, reasoning,
   mode, tag count and held tail of feeding it whole.
   */
  lemma {:induction false} ChunkingIrrelevant(ts: Tags, chunks: seq<string>)
    requires Separable(ts)
    ensures FeedAll(ts, chunks) == Held(Drain(ts, InText, Concat(chunks)))
  {
    hide Drain, Separable;
    if chunks == [] {
      DrainNothing(ts);
    } else {
      ChunkingIrrelevant(ts, chunks[..|chunks| - 1]);
      DrainSplit(ts, InText, Concat(chunks[..|chunks| - 1]), chunks[|chunks| - 1]);
    }
  }

  lemma DrainNothing(ts: Tags)
    ensures Held(Drain(ts, InText, "")) == Fresh
  {
  }

  function FlushSum(f: Fed): Tally { Then(f.sum, AddFront(f.sum.mode, f.pending, Tally("", "", f.sum.mode, 0))) }

  lemma CollectThen(evs: seq<ThinkEvent>, t: Tally, u: Tally)
    ensures Collect(evs, Then(t, u)) == Then(Collect(evs, t), u)
  {
    if evs != [] && !evs[0].Pending? {
      CollectThen(evs[1..], t, u);
      ThenAddFront(if evs[0].Text? then InText else InReasoning, evs[0].s, Collect(evs[1..], t), u);
    }
  }

  lemma FlushSumIsFlushed(d: Drained)
    ensures FlushSum(Held(d)) == Flushed(d)
  {
    var u := AddFront(d.mode, d.pending, Tally("", "", d.mode, 0));
    CollectThen(d.events, Tally("", "", d.mode, d.tags), u);
    ResultMode(d);
    assert Then(Tally("", "", d.mode, d.tags), u) == AddFront(d.mode, d.pending, Tally("", "", d.mode, d.tags));
  }

  /**
   Chunked feeding and the reference scanner put together: however the input is cut, what was
   delivered plus the held tail is the scanner's result, and the held tail is short and tagless.
   */
  lemma ChunkedFeedingIsScan(ts: Tags, chunks: seq<string>)
    requires Separable(ts)
    ensures var f := FeedAll(ts, chunks);
            && FlushSum(f) == Count(InText, Scan(ts, InText, Concat(chunks)))
            && FindNext(Active(ts, f.sum.mode), f.pending).Nowhere?
            && (f.pending != "" ==> ByteLen(f.pending) < ts.longest)
  {
    hide Drain, FindNext, FlushSum, Count, Scan;
    var d := Drain(ts, InText, Concat(chunks));
    ChunkingIrrelevant(ts, chunks);
    DrainIsScan(ts, InText, Concat(chunks));
    FlushSumIsFlushed(d);
    HeldTail(ts, InText, Concat(chunks));
    ResultMode(d);
    assert d.pending != "" ==> d.pending[0..] == d.pending;
  }
}
