/**
 The think-tag splitter of `src/response_normalize.rs`: the vocabulary of tags, the reference
 left-to-right scanner, and the function that says what one `drain_resolved` pass does.

 Strings are sequences of Unicode scalars, as Rust's `&str` is; a length the source measures in
 bytes is measured here by `ByteLen`.
 */
module ThinkTags {
  import opened Wrappers

  datatype TagKind = Open | Close
  datatype Mode = InText | InReasoning
  datatype Needle = Needle(text: string, kind: TagKind)
  datatype ThinkEvent = Reasoning(s: string) | Text(s: string) | Pending

  // ---- Tags ------------------------------------------------------------------------------

  /**
   The usable tags of a configuration, each list in the order in which the source tries them:
   those that match in text, those that match in reasoning, and the longest length in bytes.
   */
  datatype Tags = Tags(opens: seq<Needle>, all: seq<Needle>, longest: nat)

  function Active(ts: Tags, mode: Mode): seq<Needle> { if mode.InText? then ts.opens else ts.all }

  /** Bytes a scalar takes in UTF-8. */
  function Utf8Len(c: char): nat {
    if c as int < 0x80 then 1 else if c as int < 0x800 then 2 else if c as int < 0x1_0000 then 3 else 4
  }

  function ByteLen(s: string): nat {
    if s == "" then 0 else Utf8Len(s[0]) + ByteLen(s[1..])
  }

  ghost predicate Valid(ts: Tags) {
    && (forall n :: n in ts.opens ==> n in ts.all && n.kind.Open?)
    && (forall n :: n in ts.all ==> n.text != "" && ByteLen(n.text) <= ts.longest)
  }

  /** Some usable tag, open or close, begins with `c`. */
  predicate Starts(ts: Tags, c: char) {
    exists n :: n in ts.all && n.text != "" && n.text[0] == c
  }

  /**
   What chunked feeding relies on: the first character of a tag occurs nowhere strictly inside a tag,
   and no tag is a proper prefix of another.
   */
  ghost predicate Separable(ts: Tags) {
    && Valid(ts)
    && (forall n, k :: n in ts.all && 1 <= k < |n.text| - 1 ==> !Starts(ts, n.text[k]))
    && (forall n, m :: n in ts.all && m in ts.all && n.text <= m.text ==> n.text == m.text)
  }

  // ---- The reference scanner -------------------------------------------------------------

  /** The longest tag that begins exactly here; of equal tags, the first in order. */
  function BestAt(ns: seq<Needle>, x: string): (r: Option<Needle>)
    ensures r.Some? ==> r.value.text != "" && r.value.text <= x
  {
    if ns == [] then None
    else
      var best := BestAt(ns[..|ns| - 1], x);
      var n := ns[|ns| - 1];
      if n.text != "" && n.text <= x && (best.None? || |best.value.text| < |n.text|) then Some(n) else best
  }

  lemma BestAtMember(ns: seq<Needle>, x: string)
    ensures match BestAt(ns, x)
            case Some(b) =>
              && b in ns
              && forall n :: n in ns && n.text <= x ==> |n.text| <= |b.text|
            case None => forall n :: n in ns ==> n.text == "" || !(n.text <= x)
  {
    if ns != [] {
      BestAtMember(ns[..|ns| - 1], x);
      assert ns == ns[..|ns| - 1] + [ns[|ns| - 1]];
    }
  }

  function After(kind: TagKind): Mode { if kind.Open? then InReasoning else InText }

  /** One step of the reference scanner: a character on one side, or a whole tag. */
  datatype Piece = Char(mode: Mode, c: char) | Tag(needle: Needle)

  /** Reads left to right: a tag beginning here is consumed whole, else one character is emitted. */
  function Scan(ts: Tags, mode: Mode, x: string): seq<Piece>
    decreases |x|
  {
    match BestAt(Active(ts, mode), x)
    case Some(n) => [Tag(n)] + Scan(ts, After(n.kind), x[|n.text|..])
    case None => if x == "" then [] else [Char(mode, x[0])] + Scan(ts, mode, x[1..])
  }

  /** What is on each side after some pieces, the mode they end in, and the tags among them. */
  datatype Tally = Tally(text: string, reasoning: string, mode: Mode, tags: nat)

  function AddFront(mode: Mode, s: string, t: Tally): Tally {
    if mode.InText? then t.(text := s + t.text) else t.(reasoning := s + t.reasoning)
  }

  function Count(mode: Mode, ps: seq<Piece>): Tally
    decreases |ps|
  {
    if ps == [] then Tally("", "", mode, 0)
    else
      match ps[0]
      case Char(m, c) => AddFront(m, [c], Count(mode, ps[1..]))
      case Tag(n) => var t := Count(After(n.kind), ps[1..]); t.(tags := t.tags + 1)
  }

  /** The characters behind the last tag. */
  function LastRun(ps: seq<Piece>): string {
    if ps == [] || ps[|ps| - 1].Tag? then "" else LastRun(ps[..|ps| - 1]) + [ps[|ps| - 1].c]
  }

  function Spell(ps: seq<Piece>): string {
    if ps == [] then "" else (if ps[0].Char? then [ps[0].c] else ps[0].needle.text) + Spell(ps[1..])
  }

  /** The scanner loses and invents nothing: its pieces spell the input. */
  lemma {:induction false} ScanSpells(ts: Tags, mode: Mode, x: string)
    ensures Spell(Scan(ts, mode, x)) == x
    decreases |x|
  {
    match BestAt(Active(ts, mode), x)
    case Some(n) => ScanSpells(ts, After(n.kind), x[|n.text|..]);
    case None => if x != "" { ScanSpells(ts, mode, x[1..]); }
  }

  // ---- What one drain does ---------------------------------------------------------------

  datatype Found = Nowhere | At(pos: nat, needle: Needle)

  /** The earliest tag in `x` and where it begins. */
  function FindNext(ns: seq<Needle>, x: string): (r: Found)
    ensures r.At? ==> r.needle.text != "" && r.pos + |r.needle.text| <= |x|
  {
    match BestAt(ns, x)
    case Some(n) => At(0, n)
    case None =>
      if x == "" then Nowhere
      else match FindNext(ns, x[1..]) { case At(p, n) => At(p + 1, n) case Nowhere => Nowhere }
  }

  /** Walks back from position `p` while inside the window, as `hold_partial_tail` does. */
  function HoldPosFrom(ts: Tags, x: string, p: nat): (r: nat)
    requires p <= |x|
    ensures r <= |x|
  {
    if p == 0 || ts.longest <= ByteLen(x[p - 1..]) then |x|
    else if Starts(ts, x[p - 1]) then p - 1
    else HoldPosFrom(ts, x, p - 1)
  }

  /** Where the held tail begins; the end of `x` if nothing is held. */
  function HoldPos(ts: Tags, x: string): (r: nat)
    ensures r <= |x|
  {
    HoldPosFrom(ts, x, |x|)
  }

  function Emit(mode: Mode, s: string): seq<ThinkEvent> {
    if s == "" then [] else if mode.InText? then [Text(s)] else [Reasoning(s)]
  }

  /** What a drain leaves: the events it returned, the mode, the held tail, the tags it matched. */
  datatype Drained = Drained(events: seq<ThinkEvent>, mode: Mode, pending: string, tags: nat)

  function Settle(ts: Tags, mode: Mode, x: string): Drained {
    var p := HoldPos(ts, x);
    Drained(Emit(mode, x[..p]) + (if p < |x| then [Pending] else []), mode, x[p..], 0)
  }

  function Prepend(evs: seq<ThinkEvent>, d: Drained): Drained {
    d.(events := evs + d.events, tags := d.tags + 1)
  }

  function Drain(ts: Tags, mode: Mode, x: string): Drained
    decreases |x|
  {
    match FindNext(Active(ts, mode), x)
    case At(pos, n) => Prepend(Emit(mode, x[..pos]), Drain(ts, After(n.kind), x[pos + |n.text|..]))
    case Nowhere => Settle(ts, mode, x)
  }

  /** What is on each side once events have been appended, in order, in front of `t`. */
  function Collect(evs: seq<ThinkEvent>, t: Tally): Tally {
    if evs == [] then t
    else
      var rest := Collect(evs[1..], t);
      match evs[0]
      case Text(s) => AddFront(InText, s, rest)
      case Reasoning(s) => AddFront(InReasoning, s, rest)
      case Pending => rest
  }

  /** The tally of one drain, its held tail left out. */
  function Result(d: Drained): Tally { Collect(d.events, Tally("", "", d.mode, d.tags)) }

  /** The tally of one drain with the held tail flushed to the current side. */
  function Flushed(d: Drained): Tally {
    Collect(d.events, AddFront(d.mode, d.pending, Tally("", "", d.mode, d.tags)))
  }
}
