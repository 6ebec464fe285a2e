/**
 The byte string that `PromptCache::cache_key` feeds to its digest (`src/cache/mod.rs`). A request is
 given by what the key covers, each text already rendered to UTF-8, where the byte 0xFF never
 occurs (section 1 of RFC 3629).
 */
module CacheKey {
  import opened Wrappers
  import opened Lines

  const SEP: byte := 0xFF

  type Text = seq<byte>
  datatype Message = Message(role: Text, content: Text)
  datatype Request = Request(model: Text, messages: seq<Message>, temperature: Option<Text>, tools: Text)

  predicate SeparatorFree(t: Text) { SEP !in t }

  /** Rendered texts are free of it, being UTF-8, and a number never renders as nothing. */
  predicate Rendered(r: Request) {
    && SeparatorFree(r.model) && SeparatorFree(r.tools)
    && (forall m :: m in r.messages ==> SeparatorFree(m.role) && SeparatorFree(m.content))
    && (r.temperature.Some? ==> SeparatorFree(r.temperature.value) && r.temperature.value != [])
  }

  function OrNothing(t: Option<Text>): Text { if t.Some? then t.value else [] }

  function EncodeMessages(ms: seq<Message>): Text {
    if ms == [] then []
    else EncodeMessages(ms[..|ms| - 1]) + ms[|ms| - 1].role + [SEP] + ms[|ms| - 1].content + [SEP]
  }

  function Encode(r: Request): Text {
    r.model + [SEP] + EncodeMessages(r.messages) + [SEP] + OrNothing(r.temperature) + [SEP] + r.tools
  }

  /** What the hasher has been fed when `cache_key` finalises it. */
  method HashInput(r: Request) returns (fed: Text)
    ensures fed == Encode(r)
  {
    fed := r.model;
    fed := fed + [SEP];
    for i := 0 to |r.messages|
      invariant fed == r.model + [SEP] + EncodeMessages(r.messages[..i])
    {
      var m := r.messages[i];
      assert r.messages[..i + 1][..i] == r.messages[..i];
      fed := fed + m.role;
      fed := fed + [SEP];
      fed := fed + m.content;
      fed := fed + [SEP];
    }
    assert r.messages[..|r.messages|] == r.messages;
    fed := fed + [SEP];
    fed := fed + OrNothing(r.temperature);
    fed := fed + [SEP];
    fed := fed + r.tools;
  }

  // ---- The encoding as separated fields --------------------------------------------------

  function Separated(fs: seq<Text>): Text {
    if fs == [] then [] else if |fs| == 1 then fs[0] else fs[0] + [SEP] + Separated(fs[1..])
  }

  function MessageFields(ms: seq<Message>): seq<Text> {
    if ms == [] then [] else [ms[0].role, ms[0].content] + MessageFields(ms[1..])
  }

  /** The empty field marks the end of the messages. */
  function Fields(r: Request): seq<Text> {
    [r.model] + MessageFields(r.messages) + [[], OrNothing(r.temperature), r.tools]
  }

  /** Splitting at the separator is unambiguous. */
  lemma {:induction false} SeparatedInjective(fs: seq<Text>, gs: seq<Text>)
    requires fs != [] && gs != [] && Separated(fs) == Separated(gs)
    requires (forall f :: f in fs ==> SeparatorFree(f)) && (forall g :: g in gs ==> SeparatorFree(g))
    ensures fs == gs
    decreases |fs|
  {
    var x := Separated(fs);
    FirstField(fs);
    FirstField(gs);
    assert fs[0] == gs[0];
    if |fs| > 1 {
      assert x[|fs[0]| + 1..] == Separated(fs[1..]);
      assert x[|gs[0]| + 1..] == Separated(gs[1..]);
      SeparatedInjective(fs[1..], gs[1..]);
    }
    assert fs == [fs[0]] + fs[1..] && gs == [gs[0]] + gs[1..];
  }

  /** The first field ends at the first separator, and there is one exactly if more fields follow. */
  lemma FirstField(fs: seq<Text>)
    requires fs != [] && forall f :: f in fs ==> SeparatorFree(f)
    ensures var x, k := Separated(fs), |fs[0]|;
            && k <= |x| && x[..k] == fs[0] && (forall i :: 0 <= i < k ==> x[i] != SEP)
            && (|fs| > 1 ==> k < |x| && x[k] == SEP) && (|fs| == 1 ==> k == |x|)
  {
    assert fs[0] in fs && SeparatorFree(fs[0]);
    assert forall i :: 0 <= i < |fs[0]| ==> fs[0][i] in fs[0];
    assert forall i :: 0 <= i < |fs[0]| ==> fs[0][i] != SEP;
  }

  lemma MessageFieldsSnoc(ms: seq<Message>, m: Message)
    ensures MessageFields(ms + [m]) == MessageFields(ms) + [m.role, m.content]
  {
    if ms == [] {
      assert ms + [m] == [m];
    } else {
      assert (ms + [m])[1..] == ms[1..] + [m];
    }
  }

  lemma SeparatedSplit(fs: seq<Text>, gs: seq<Text>)
    requires fs != [] && gs != []
    ensures Separated(fs + gs) == Separated(fs) + [SEP] + Separated(gs)
  {
    if |fs| == 1 {
      assert (fs + gs)[1..] == gs;
    } else {
      assert (fs + gs)[1..] == fs[1..] + gs;
    }
  }

  lemma {:induction false} MessagesSeparated(model: Text, ms: seq<Message>)
    ensures Separated([model] + MessageFields(ms)) + [SEP] == model + [SEP] + EncodeMessages(ms)
  {
    if ms != [] {
      var front, m := ms[..|ms| - 1], ms[|ms| - 1];
      assert ms == front + [m];
      MessageFieldsSnoc(front, m);
      MessagesSeparated(model, front);
      var fs := [model] + MessageFields(front);
      assert [model] + MessageFields(ms) == fs + [m.role, m.content];
      SeparatedSplit(fs, [m.role, m.content]);
      assert [m.role, m.content][1..] == [m.content];
    }
  }

  lemma EncodeIsSeparated(r: Request)
    ensures Encode(r) == Separated(Fields(r))
  {
    var fs, t := [r.model] + MessageFields(r.messages), OrNothing(r.temperature);
    MessagesSeparated(r.model, r.messages);
    SeparatedSplit(fs, [[], t, r.tools]);
    assert [[], t, r.tools][1..] == [t, r.tools] && [t, r.tools][1..] == [r.tools];
    assert Separated([t, r.tools]) == t + [SEP] + r.tools;
    assert Separated([[], t, r.tools]) == [] + [SEP] + (t + [SEP] + r.tools);
  }

  lemma {:induction false} MessageFieldsInjective(a: seq<Message>, b: seq<Message>)
    requires MessageFields(a) == MessageFields(b)
    ensures a == b
    decreases |a|
  {
    if a != [] && b != [] {
      var fa, fb := MessageFields(a), MessageFields(b);
      assert fa[0] == a[0].role && fa[1] == a[0].content && fb[0] == b[0].role && fb[1] == b[0].content;
      assert fa[2..] == MessageFields(a[1..]) && fb[2..] == MessageFields(b[1..]);
      MessageFieldsInjective(a[1..], b[1..]);
      assert a == [a[0]] + a[1..] && b == [b[0]] + b[1..];
    }
  }

  lemma FieldsSeparatorFree(ms: seq<Message>)
    requires forall m :: m in ms ==> SeparatorFree(m.role) && SeparatorFree(m.content)
    ensures forall f :: f in MessageFields(ms) ==> SeparatorFree(f)
  {
  }

  /**
   The encoding is injective: two requests with the same digest input have the same model, the same
   messages with the same roles and contents, the same temperature and the same tools.
   */
  lemma EncodeInjective(a: Request, b: Request)
    requires Rendered(a) && Rendered(b) && Encode(a) == Encode(b)
    ensures a == b
  {
    hide Encode, MessageFields, Separated;
    EncodeIsSeparated(a);
    EncodeIsSeparated(b);
    FieldsSeparatorFree(a.messages);
    FieldsSeparatorFree(b.messages);
    SeparatedInjective(Fields(a), Fields(b));
    var fa, fb := Fields(a), Fields(b);
    var n := |fa|;
    assert fa[0] == a.model && fb[0] == b.model && fa[n - 1] == a.tools && fb[n - 1] == b.tools;
    assert fa[n - 2] == OrNothing(a.temperature) && fb[n - 2] == OrNothing(b.temperature);
    assert fa[1..n - 3] == MessageFields(a.messages) && fb[1..n - 3] == MessageFields(b.messages);
    MessageFieldsInjective(a.messages, b.messages);
  }
}
