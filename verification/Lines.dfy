/**
 Cutting a byte stream into lines. Both stream transformers (`src/server/stream_normalize.rs` and
 `src/provider/anthropic_stream.rs`) buffer network chunks and take complete lines from the front;
 `CutMore` is why the network's chunking cannot matter to either of them.
 */
module Lines {
  import opened Sequences

  newtype byte = x: int | 0 <= x < 256

  const LF: byte := 10

  /** What an inner byte stream answers to a poll; a stream is a script of these, and ends with it. */
  datatype Upstream = Bytes(b: seq<byte>) | Failure(e: string) | NotYet

  /** Index of the first LF, or the length if there is none. */
  function FirstLF(b: seq<byte>): (k: nat)
    ensures k <= |b|
    ensures forall i :: 0 <= i < k ==> b[i] != LF
    ensures k < |b| ==> b[k] == LF
  {
    if b == [] || b[0] == LF then 0 else FirstLF(b[1..]) + 1
  }

  /** Complete lines, each with its LF, and the incomplete rest. */
  datatype Cut = Cut(lines: seq<seq<byte>>, rest: seq<byte>)

  function CutLines(b: seq<byte>): Cut
    decreases |b|
  {
    var k := FirstLF(b);
    if k == |b| then Cut([], b)
    else
      var c := CutLines(b[k + 1..]);
      Cut([b[..k + 1]] + c.lines, c.rest)
  }

  /** A complete line: one LF, at its end. */
  ghost predicate IsLine(l: seq<byte>) {
    l != [] && l[|l| - 1] == LF && forall i :: 0 <= i < |l| - 1 ==> l[i] != LF
  }

  function Join(parts: seq<seq<byte>>): seq<byte> {
    if parts == [] then [] else parts[0] + Join(parts[1..])
  }

  /** Cutting keeps every byte, and its pieces are lines. */
  lemma {:induction false} CutKeeps(b: seq<byte>)
    ensures Join(CutLines(b).lines) + CutLines(b).rest == b
    ensures forall l :: l in CutLines(b).lines ==> IsLine(l)
    ensures forall i :: 0 <= i < |CutLines(b).rest| ==> CutLines(b).rest[i] != LF
    decreases |b|
  {
    hide FirstLF, CutLines;
    var k := FirstLF(b);
    CutStep(b);
    if k < |b| {
      var line, rest := b[..k + 1], CutLines(b[k + 1..]);
      CutKeeps(b[k + 1..]);
      assert ([line] + rest.lines)[1..] == rest.lines;
      assert (line + Join(rest.lines)) + rest.rest == line + (Join(rest.lines) + rest.rest);
      assert b == line + b[k + 1..];
      assert IsLine(line);
    }
  }

  lemma FirstLFUnique(b: seq<byte>, k: nat)
    requires k < |b| && b[k] == LF && forall i :: 0 <= i < k ==> b[i] != LF
    ensures FirstLF(b) == k
  {
  }

  /** Cutting `a + b` is cutting `a`, then cutting what was left of it followed by `b`. */
  lemma {:induction false} CutMore(a: seq<byte>, b: seq<byte>)
    ensures var c := CutLines(a);
            var d := CutLines(c.rest + b);
            CutLines(a + b) == Cut(c.lines + d.lines, d.rest)
    decreases |a|
  {
    hide CutLines, FirstLF;
    var k := FirstLF(a);
    CutStep(a);
    if k < |a| {
      FirstLFUnique(a + b, k);
      CutStep(a + b);
      var c := CutLines(a[k + 1..]);
      assert (a + b)[k + 1..] == a[k + 1..] + b && (a + b)[..k + 1] == a[..k + 1];
      CutMore(a[k + 1..], b);
      var d := CutLines(c.rest + b);
      assert [a[..k + 1]] + (c.lines + d.lines) == ([a[..k + 1]] + c.lines) + d.lines;
    } else {
      assert [] + CutLines(a + b).lines == CutLines(a + b).lines;
    }
  }

  lemma {:induction false} CutStep(b: seq<byte>)
    ensures var k := FirstLF(b);
            CutLines(b) ==
            if k == |b| then Cut([], b)
            else Cut([b[..k + 1]] + CutLines(b[k + 1..]).lines, CutLines(b[k + 1..]).rest)
  {
    hide FirstLF;
  }
}
