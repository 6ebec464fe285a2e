/**
 The laws that `WireTheorems` demands of UTF-8 and JSON can be met: a codec that meets them. It writes
 every character in four digits to the base 64, and a value as its parts one after the other; reading is
 the inverse of writing.
 */
module CodecWitness {
  import opened Wrappers
  import opened Lines
  import opened Sequences
  import opened StreamNormalize
  import opened WireTheorems

  // ---- Characters ------------------------------------------------------------------------

  datatype Digits = Digits(a: nat, b: nat, c: nat, d: nat)

  function DigitsOf(c: char): (r: Digits)
    ensures r.a < 64 && r.b < 64 && r.c < 64 && r.d < 64
    ensures c as int == ((r.a * 64 + r.b) * 64 + r.c) * 64 + r.d
  {
    var n := c as int;
    Digits(n / 64 / 64 / 64, n / 64 / 64 % 64, n / 64 % 64, n % 64)
  }

  lemma DigitsTell(c: char, d: char)
    requires DigitsOf(c) == DigitsOf(d)
    ensures c == d
  {
  }

  // ---- Text as bytes ---------------------------------------------------------------------

  function CharBytes(c: char): seq<byte> {
    if c == '\n' then [LF]
    else
      var r := DigitsOf(c);
      [(r.a + 128) as byte, (r.b + 128) as byte, (r.c + 128) as byte, (r.d + 128) as byte]
  }

  function Encode(s: string): seq<byte> {
    if s == "" then [] else CharBytes(s[0]) + Encode(s[1..])
  }

  lemma {:induction false} EncodeSplit(s: string, t: string)
    ensures Encode(s + t) == Encode(s) + Encode(t)
  {
    if s == "" {
      assert s + t == t && [] + Encode(t) == Encode(t);
    } else {
      assert (s + t)[1..] == s[1..] + t;
      EncodeSplit(s[1..], t);
      Assoc(CharBytes(s[0]), Encode(s[1..]), Encode(t));
    }
  }

  /** The first character can be told from what follows it. */
  lemma CharTells(c: char, x: seq<byte>, d: char, y: seq<byte>)
    requires CharBytes(c) + x == CharBytes(d) + y
    ensures c == d && x == y
  {
    var a, b := CharBytes(c), CharBytes(d);
    assert (a + x)[0] == a[0] && (b + y)[0] == b[0];
    assert |a| == |b|;
    Cancel(a, x, b, y);
    if c != '\n' {
      assert a[0] == b[0] && a[1] == b[1] && a[2] == b[2] && a[3] == b[3];
      DigitsTell(c, d);
    }
  }

  lemma Cancel<T>(a: seq<T>, x: seq<T>, b: seq<T>, y: seq<T>)
    requires a + x == b + y && |a| == |b|
    ensures a == b && x == y
  {
    assert a == (a + x)[..|a|] && b == (b + y)[..|b|];
    assert x == (a + x)[|a|..] && y == (b + y)[|b|..];
  }

  lemma {:induction false} EncodeTells(s: string, t: string)
    requires Encode(s) == Encode(t)
    ensures s == t
  {
    hide CharBytes;
    SomeBytes(s);
    SomeBytes(t);
    if s != "" {
      CharTells(s[0], Encode(s[1..]), t[0], Encode(t[1..]));
      EncodeTells(s[1..], t[1..]);
      assert s == [s[0]] + s[1..] && t == [t[0]] + t[1..];
    }
  }

  lemma SomeBytes(s: string)
    ensures s != "" ==> Encode(s) != []
    ensures s == "" ==> Encode(s) == []
  {
  }

  lemma {:induction false} NoNewline(s: string)
    requires '\n' !in s
    ensures LF !in Encode(s)
  {
    if s != "" {
      NoNewline(s[1..]);
      assert s[0] in s;
    }
  }

  ghost function Decode(b: seq<byte>): Option<string> {
    if exists s :: Encode(s) == b then var s :| Encode(s) == b; Some(s) else None
  }

  lemma DecodeUndoes(s: string)
    ensures Decode(Encode(s)) == Some(s)
  {
    EncodeTells(s, Decode(Encode(s)).value);
  }

  // ---- Values as text --------------------------------------------------------------------

  /** A character that stands for a digit; neither a newline nor a carriage return. */
  function Sign(n: nat): char
    requires n < 64
  {
    (n + 48) as char
  }

  function CharText(c: char): string {
    var r := DigitsOf(c);
    ['+', Sign(r.a), Sign(r.b), Sign(r.c), Sign(r.d)]
  }

  function Quote(s: string): string { if s == "" then "-" else CharText(s[0]) + Quote(s[1..]) }

  ghost function Items(d: nat, items: seq<Json>): string
    decreases d, 1, |items|
  {
    if items == [] then "." else "," + (Render(d, items[0]) + Items(d, items[1..]))
  }

  ghost function SomeKey(fields: map<string, Json>): string
    requires fields != map[]
    ensures SomeKey(fields) in fields
  {
    var k :| k in fields; k
  }

  /** The fields in some order. */
  ghost function Fields(d: nat, fields: map<string, Json>): string
    decreases d, 1, |fields|
  {
    if fields == map[] then "."
    else
      var k := SomeKey(fields);
      "," + (Quote(k) + (Render(d, fields[k]) + Fields(d, fields - {k})))
  }

  ghost function Render(d: nat, v: Json): string
    decreases d, 0, 0
  {
    match v
    case Null => "n"
    case Bool(b) => if b then "t" else "f"
    case Number(repr) => "#" + Quote(repr)
    case Str(s) => "s" + Quote(s)
    case Arr(items) => if d == 0 then "[" else "[" + Items(d - 1, items)
    case Obj(fields) => if d == 0 then "{" else "{" + Fields(d - 1, fields)
  }

  ghost predicate Fine(d: nat, v: Json) { WellFormed(_ => true, d, v) }

  lemma {:induction false} QuoteTells(s: string, x: string, t: string, y: string)
    requires Quote(s) + x == Quote(t) + y
    ensures s == t && x == y
    decreases |s|
  {
    hide CharText;
    FirstSign(s, x);
    FirstSign(t, y);
    if s == "" {
      Cancel("-", x, "-", y);
    } else {
      Assoc(CharText(s[0]), Quote(s[1..]), x);
      Assoc(CharText(t[0]), Quote(t[1..]), y);
      CharTextTells(s[0], Quote(s[1..]) + x, t[0], Quote(t[1..]) + y);
      QuoteTells(s[1..], x, t[1..], y);
      assert s == [s[0]] + s[1..] && t == [t[0]] + t[1..];
    }
  }

  lemma FirstSign(s: string, x: string)
    ensures Quote(s) + x != "" && (Quote(s) + x)[0] == if s == "" then '-' else '+'
  {
  }

  lemma CharTextTells(c: char, x: string, d: char, y: string)
    requires CharText(c) + x == CharText(d) + y
    ensures c == d && x == y
  {
    var a, b := CharText(c), CharText(d);
    Cancel(a, x, b, y);
    assert a[1] == b[1] && a[2] == b[2] && a[3] == b[3] && a[4] == b[4];
    DigitsTell(c, d);
  }

  lemma Peel(c: char, x: string, d: char, y: string)
    requires [c] + x == [d] + y
    ensures c == d && x == y
  {
    Cancel([c], x, [d], y);
    assert [c][0] == [d][0];
  }

  /** A value can be told from what follows it. */
  lemma {:induction false} RenderTells(d: nat, v: Json, x: string, w: Json, y: string)
    requires Fine(d, v) && Fine(d, w) && Render(d, v) + x == Render(d, w) + y
    ensures v == w && x == y
    decreases d, 0, 0
  {
    hide Quote, Items, Fields;
    Opening(d, v, x);
    Opening(d, w, y);
    Peel(Mark(v), Body(d, v) + x, Mark(w), Body(d, w) + y);
    match v
    case Number(repr) => QuoteTells(repr, x, w.repr, y);
    case Str(s) => QuoteTells(s, x, w.s, y);
    case Arr(items) => ItemsTell(d - 1, items, x, w.items, y);
    case Obj(fields) => FieldsTell(d - 1, fields, x, w.fields, y);
    case Null => assert "" + x == x && "" + y == y;
    case Bool(b) => assert "" + x == x && "" + y == y;
  }

  function Mark(v: Json): char {
    match v
    case Null => 'n'
    case Bool(b) => if b then 't' else 'f'
    case Number(_) => '#'
    case Str(_) => 's'
    case Arr(_) => '['
    case Obj(_) => '{'
  }

  ghost function Body(d: nat, v: Json): string {
    match v
    case Number(repr) => Quote(repr)
    case Str(s) => Quote(s)
    case Arr(items) => if d == 0 then "" else Items(d - 1, items)
    case Obj(fields) => if d == 0 then "" else Fields(d - 1, fields)
    case _ => ""
  }

  lemma Opening(d: nat, v: Json, x: string)
    ensures Render(d, v) == [Mark(v)] + Body(d, v) && Render(d, v) + x == [Mark(v)] + (Body(d, v) + x)
  {
    hide Quote, Items, Fields;
    Assoc([Mark(v)], Body(d, v), x);
  }

  lemma {:induction false} ItemsTell(d: nat, items: seq<Json>, x: string, others: seq<Json>, y: string)
    requires (forall v :: v in items ==> Fine(d, v)) && (forall v :: v in others ==> Fine(d, v))
    requires Items(d, items) + x == Items(d, others) + y
    ensures items == others && x == y
    decreases d, 1, |items|
  {
    hide Render, Fine;
    ItemsOpen(d, items, x);
    ItemsOpen(d, others, y);
    assert (Items(d, items) + x)[0] == (Items(d, others) + y)[0];
    if items == [] {
      Peel('.', x, '.', y);
    } else {
      var i, o := Items(d, items[1..]) + x, Items(d, others[1..]) + y;
      Peel(',', Render(d, items[0]) + i, ',', Render(d, others[0]) + o);
      RenderTells(d, items[0], i, others[0], o);
      ItemsTell(d, items[1..], x, others[1..], y);
      assert items == [items[0]] + items[1..] && others == [others[0]] + others[1..];
    }
  }

  lemma ItemsOpen(d: nat, items: seq<Json>, x: string)
    ensures Items(d, items) + x ==
            if items == [] then ['.'] + x else [','] + (Render(d, items[0]) + (Items(d, items[1..]) + x))
  {
    hide Render;
    if items != [] {
      Assoc([','], Render(d, items[0]) + Items(d, items[1..]), x);
      Assoc(Render(d, items[0]), Items(d, items[1..]), x);
    }
  }

  lemma {:induction false} FieldsTell(d: nat, fields: map<string, Json>, x: string,
                                      others: map<string, Json>, y: string)
    requires (forall k :: k in fields ==> Fine(d, fields[k])) && (forall k :: k in others ==> Fine(d, others[k]))
    requires Fields(d, fields) + x == Fields(d, others) + y
    ensures fields == others && x == y
    decreases d, 1, |fields|
  {
    hide Render, Fine, Quote;
    FieldsOpen(d, fields, x);
    FieldsOpen(d, others, y);
    assert (Fields(d, fields) + x)[0] == (Fields(d, others) + y)[0];
    if fields == map[] {
      Peel('.', x, '.', y);
    } else {
      var k, j := SomeKey(fields), SomeKey(others);
      var f, g := Fields(d, fields - {k}) + x, Fields(d, others - {j}) + y;
      var vf, vg := Render(d, fields[k]) + f, Render(d, others[j]) + g;
      Peel(',', Quote(k) + vf, ',', Quote(j) + vg);
      QuoteTells(k, vf, j, vg);
      RenderTells(d, fields[k], f, others[j], g);
      FieldsTell(d, fields - {k}, x, others - {k}, y);
      assert fields == (fields - {k})[k := fields[k]] && others == (others - {k})[k := others[k]];
    }
  }

  lemma FieldsOpen(d: nat, fields: map<string, Json>, x: string)
    ensures Fields(d, fields) + x ==
            if fields == map[] then ['.'] + x
            else
              var k := SomeKey(fields);
              [','] + (Quote(k) + (Render(d, fields[k]) + (Fields(d, fields - {k}) + x)))
  {
    hide Render, Quote;
    if fields != map[] {
      var k := SomeKey(fields);
      var v, f := Render(d, fields[k]), Fields(d, fields - {k});
      Assoc([','], Quote(k) + (v + f), x);
      Assoc(Quote(k), v + f, x);
      Assoc(v, f, x);
    }
  }

  // ---- No line breaks in a rendered value ------------------------------------------------

  ghost predicate OneLine(s: string) { '\n' !in s && '\r' !in s }

  lemma {:induction false} QuoteIsOneLine(s: string)
    ensures OneLine(Quote(s))
  {
    if s != "" {
      QuoteIsOneLine(s[1..]);
      var r := DigitsOf(s[0]);
      assert forall c :: c in CharText(s[0]) ==> c == '+' || c as int >= 48;
    }
  }

  lemma {:induction false} RenderIsOneLine(d: nat, v: Json)
    ensures OneLine(Render(d, v))
    decreases d, 0, 0
  {
    hide Quote, Items, Fields;
    match v
    case Number(repr) => QuoteIsOneLine(repr);
    case Str(s) => QuoteIsOneLine(s);
    case Arr(items) => if d > 0 { ItemsAreOneLine(d - 1, items); }
    case Obj(fields) => if d > 0 { FieldsAreOneLine(d - 1, fields); }
    case Null =>
    case Bool(_) =>
  }

  lemma {:induction false} ItemsAreOneLine(d: nat, items: seq<Json>)
    ensures OneLine(Items(d, items))
    decreases d, 1, |items|
  {
    hide Render;
    if items != [] {
      RenderIsOneLine(d, items[0]);
      ItemsAreOneLine(d, items[1..]);
    }
  }

  lemma {:induction false} FieldsAreOneLine(d: nat, fields: map<string, Json>)
    ensures OneLine(Fields(d, fields))
    decreases d, 1, |fields|
  {
    hide Render, Quote;
    if fields != map[] {
      var k := SomeKey(fields);
      QuoteIsOneLine(k);
      RenderIsOneLine(d, fields[k]);
      FieldsAreOneLine(d, fields - {k});
    }
  }

  // ---- The codec -------------------------------------------------------------------------

  const DEPTH: nat := 4

  ghost function Parse(s: string): Option<Json> {
    if exists v :: Fine(DEPTH, v) && Render(DEPTH, v) == s then
      var v :| Fine(DEPTH, v) && Render(DEPTH, v) == s;
      Some(v)
    else None
  }

  lemma ParseUndoes(v: Json)
    requires Fine(DEPTH, v)
    ensures Parse(Render(DEPTH, v)) == Some(v)
  {
    hide Render, Fine;
    var w := Parse(Render(DEPTH, v)).value;
    AppendEmpty(Render(DEPTH, v));
    RenderTells(DEPTH, v, "", w, "");
  }

  lemma {:induction false} AlikeItself(d: nat, v: Json)
    requires Fine(d, v)
    ensures Alike(d, v, v)
  {
    match v
    case Arr(items) =>
      forall i | 0 <= i < |items| ensures Alike(d - 1, items[i], items[i]) {
        assert items[i] in items;
        AlikeItself(d - 1, items[i]);
      }
    case Obj(fields) =>
      forall k | k in fields ensures Alike(d - 1, fields[k], fields[k]) {
        AlikeItself(d - 1, fields[k]);
      }
    case _ =>
  }

  ghost function TheCodec(): Codec {
    Codec(b => Decode(b), s => Encode(s), s => Parse(s), v => Render(DEPTH, v), _ => true, DEPTH)
  }

  lemma TextLaws()
    ensures LawfulText(TheCodec())
  {
    hide Parse, Render, CharBytes;
    var c := TheCodec();
    forall s ensures c.decode(c.encode(s)) == Some(s) { DecodeUndoes(s); }
    forall s: string, t: string ensures c.encode(s + t) == c.encode(s) + c.encode(t) { EncodeSplit(s, t); }
    forall s | '\n' !in s ensures LF !in c.encode(s) { NoNewline(s); }
    assert c.encode("\n") == [LF] by { NewlineByte(); }
  }

  lemma NewlineByte()
    ensures Encode("\n") == [LF]
  {
    assert "\n"[1..] == "";
  }

  lemma JsonLaws()
    ensures LawfulJson(TheCodec())
  {
    hide Decode, Encode;
    var c := TheCodec();
    assert forall v :: Fits(c, v) <==> Fine(DEPTH, v) by {
      assert c.numeral == (_ => true);
    }
    hide Render, Fine, Fits;
    forall v | Fits(c, v) ensures c.parse(c.render(v)).Some? && Alike(c.depth, v, c.parse(c.render(v)).value) {
      ParseUndoes(v);
      assert Alike(DEPTH, v, v) by { AlikeItself(DEPTH, v); }
    }
    forall v | Fits(c, v) ensures '\n' !in c.render(v) && '\r' !in c.render(v) { RenderIsOneLine(DEPTH, v); }
    forall v: Json | Fits(c, v) && v.Obj? ensures c.render(v) != "" && c.render(v)[0] == '{' { Opening(DEPTH, v, ""); }
  }

  /** The laws can be met. */
  lemma SomeCodecIsLawful() returns (c: Codec)
    ensures Lawful(c)
  {
    hide LawfulText, LawfulJson;
    c := TheCodec();
    TextLaws();
    JsonLaws();
  }
}
