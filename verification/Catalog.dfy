/**
 The model-catalog matcher and the duplicate check of `src/model_import.rs`. Strings are compared by
 code point, which for UTF-8 is the byte order of the source.
 */
module Catalog {
  import opened Wrappers
  import opened ThinkTags
  import SN = StreamNormalize

  datatype Candidate = Candidate(id: string, provider: string, value: SN.Json)

  /** A configured provider: its id and its kind. */
  datatype Row = Row(id: string, kind: string)

  // ---- Scoring ---------------------------------------------------------------------------

  function NormChar(c: char): string {
    var lower := if 'A' <= c <= 'Z' then (c as int + 32) as char else c;
    if lower in {'-', '_', ' '} then "" else [lower]
  }

  function Norm(s: string): string { if s == "" then "" else NormChar(s[0]) + Norm(s[1..]) }

  predicate EndsWith(s: string, t: string) { |t| <= |s| && s[|s| - |t|..] == t }

  predicate Contains(s: string, t: string) { exists i :: 0 <= i <= |s| && t <= s[i..] }

  predicate BySuffix(destination: string, id: string) {
    EndsWith(destination, "/" + id) || EndsWith(id, "/" + destination)
  }

  predicate Matches(destination: string, id: string) {
    destination == id || BySuffix(destination, id) || Contains(destination, id)
  }

  predicate Compatible(source: string, row: Row) {
    var s, kind := Norm(source), Norm(row.kind);
    || s == Norm(row.id) || s == kind
    || (s == "xai" && kind in {"openai", "azure"})
    || (s in {"deepseek", "zai", "zhipuai", "zhipu"} && kind == "openai")
    || (s == "google" && kind == "gemini")
    || (s == "openai" && kind == "azure")
    || (s == "azureopenai" && kind in {"azure", "openai"})
  }

  function CanonicalRank(provider: string): int {
    var p := Norm(provider);
    if p in {"openai", "anthropic", "google", "xai", "deepseek", "mistral"} then 15
    else if p == "zai" then 14
    else if p == "zhipuai" then 13
    else if p == "zhipu" then 12
    else if p == "groq" then 11
    else 0
  }

  function Score(destination: string, c: Candidate, rows: seq<Row>): int {
    (if c.id == destination then 100
     else if BySuffix(destination, c.id) then 80
     else if Contains(destination, c.id) then 40 + if ByteLen(c.id) < 20 then ByteLen(c.id) else 20
     else 0)
    + (if exists i :: 0 <= i < |rows| && Compatible(c.provider, rows[i]) then 20 else 0)
    + CanonicalRank(c.provider)
  }

  // ---- The order on candidates -----------------------------------------------------------

  predicate LexLess(a: string, b: string) {
    b != "" && (a == "" || a[0] < b[0] || (a[0] == b[0] && LexLess(a[1..], b[1..])))
  }

  predicate HasCost(c: Candidate) { SN.Get(c.value, "cost").Some? }

  predicate SameKey(a: Candidate, b: Candidate) { a.provider == b.provider && a.id == b.id }

  /** `tie_break` says "less". */
  predicate TieLess(a: Candidate, b: Candidate) {
    if HasCost(a) != HasCost(b) then HasCost(a)
    else LexLess(a.provider, b.provider) || (a.provider == b.provider && LexLess(a.id, b.id))
  }

  predicate Beats(destination: string, rows: seq<Row>, a: Candidate, b: Candidate) {
    var s, t := Score(destination, a, rows), Score(destination, b, rows);
    s > t || (s == t && TieLess(a, b))
  }

  lemma {:induction false} LexTotal(a: string, b: string)
    ensures !(LexLess(a, b) && LexLess(b, a)) && (LexLess(a, b) || LexLess(b, a) || a == b) && !LexLess(a, a)
  {
    if a != "" {
      LexTotal(a[1..], a[1..]);
      if b != "" && a[0] == b[0] {
        LexTotal(a[1..], b[1..]);
        assert a == [a[0]] + a[1..] && b == [b[0]] + b[1..];
      }
    }
  }

  lemma {:induction false} LexTransitive(a: string, b: string, c: string)
    requires LexLess(a, b) && LexLess(b, c)
    ensures LexLess(a, c)
  {
    if a != "" && a[0] == b[0] == c[0] {
      LexTransitive(a[1..], b[1..], c[1..]);
    }
  }

  lemma TieTransitive(a: Candidate, b: Candidate, c: Candidate)
    requires TieLess(a, b) && TieLess(b, c)
    ensures TieLess(a, c)
  {
    hide LexLess;
    if LexLess(a.provider, b.provider) && LexLess(b.provider, c.provider) {
      LexTransitive(a.provider, b.provider, c.provider);
    }
    if LexLess(a.id, b.id) && LexLess(b.id, c.id) {
      LexTransitive(a.id, b.id, c.id);
    }
  }

  /** "Beats" is a strict order that separates any two candidates with different (provider, id). */
  lemma BeatsIsOrder(destination: string, rows: seq<Row>, a: Candidate, b: Candidate, c: Candidate)
    ensures Beats(destination, rows, a, b) && Beats(destination, rows, b, c) ==> Beats(destination, rows, a, c)
    ensures !(Beats(destination, rows, a, b) && Beats(destination, rows, b, a))
    ensures !SameKey(a, b) ==> Beats(destination, rows, a, b) || Beats(destination, rows, b, a)
  {
    hide Score, LexLess;
    if TieLess(a, b) && TieLess(b, c) {
      TieTransitive(a, b, c);
    }
    LexTotal(a.provider, b.provider);
    LexTotal(a.id, b.id);
    LexTotal(a.provider, a.provider);
  }

  // ---- Picking the best match ------------------------------------------------------------

  /** `c` is a match that no match in `cs` beats. */
  ghost predicate Best(destination: string, rows: seq<Row>, cs: seq<Candidate>, c: Candidate) {
    && c in cs && Matches(destination, c.id)
    && forall x :: x in cs && Matches(destination, x.id) ==> !Beats(destination, rows, x, c)
  }

  lemma BestStep(destination: string, rows: seq<Row>, cs: seq<Candidate>, b: Candidate, c: Candidate)
    requires Best(destination, rows, cs, b)
    ensures !Matches(destination, c.id) || !Beats(destination, rows, c, b) ==> Best(destination, rows, cs + [c], b)
    ensures Matches(destination, c.id) && Beats(destination, rows, c, b) ==> Best(destination, rows, cs + [c], c)
  {
    hide Beats, Matches;
    forall x
      ensures Beats(destination, rows, x, c) && Beats(destination, rows, c, b) ==> Beats(destination, rows, x, b)
    {
      BeatsIsOrder(destination, rows, x, c, b);
    }
    BeatsIsOrder(destination, rows, c, c, c);
  }

  /** `pick_catalog_match`: a best match; nothing exactly when nothing matches. */
  method PickCatalogMatch(candidates: seq<Candidate>, destination: string, rows: seq<Row>)
    returns (r: Option<Candidate>)
    ensures r.Some? ==> Best(destination, rows, candidates, r.value)
    ensures r.None? <==> forall c :: c in candidates ==> !Matches(destination, c.id)
  {
    hide Matches, Best, Score, TieLess;
    r := None;
    var bestScore := 0;
    for i := 0 to |candidates|
      invariant r.Some? ==> Best(destination, rows, candidates[..i], r.value)
      invariant r.Some? ==> bestScore == Score(destination, r.value, rows)
      invariant r.None? <==> forall c :: c in candidates[..i] ==> !Matches(destination, c.id)
    {
      var c := candidates[i];
      assert candidates[..i + 1] == candidates[..i] + [c];
      if r.Some? {
        BestStep(destination, rows, candidates[..i], r.value, c);
      }
      if !Matches(destination, c.id) {
        continue;
      }
      var score := Score(destination, c, rows);
      if r.None? {
        FirstIsBest(destination, rows, candidates[..i], c);
        r, bestScore := Some(c), score;
      } else if score > bestScore {
        r, bestScore := Some(c), score;
      } else if score == bestScore {
        if TieLess(c, r.value) {
          r, bestScore := Some(c), score;
        }
      }
    }
    assert candidates[..|candidates|] == candidates;
  }

  lemma FirstIsBest(destination: string, rows: seq<Row>, cs: seq<Candidate>, c: Candidate)
    requires (forall x :: x in cs ==> !Matches(destination, x.id)) && Matches(destination, c.id)
    ensures Best(destination, rows, cs + [c], c)
  {
    hide Matches, Beats;
    BeatsIsOrder(destination, rows, c, c, c);
  }

  /** No two entries share (provider, id). */
  ghost predicate Distinct(cs: seq<Candidate>) {
    forall i, j :: 0 <= i < j < |cs| ==> !SameKey(cs[i], cs[j])
  }

  /**
   The answer does not depend on the order of the candidates: with distinct (provider, id), the best
   match among `cs` beats every other match and is the best match among any rearrangement of `cs`.
   */
  lemma BestIsUnique(destination: string, rows: seq<Row>,
                     cs: seq<Candidate>, ds: seq<Candidate>, c: Candidate, d: Candidate)
    requires Distinct(cs) && multiset(cs) == multiset(ds)
    requires Best(destination, rows, cs, c) && Best(destination, rows, ds, d)
    ensures c == d
    ensures forall x :: x in cs && Matches(destination, x.id) && x != c ==> Beats(destination, rows, c, x)
  {
    hide Beats, Matches;
    forall x { SameElements(cs, ds, x); }
    forall x | x in cs && Matches(destination, x.id) && x != c ensures Beats(destination, rows, c, x) {
      BeatsIsOrder(destination, rows, c, x, c);
      if SameKey(x, c) {
        KeyIdentifies(cs, x, c);
      }
    }
    BeatsIsOrder(destination, rows, c, d, c);
  }

  lemma SameElements(cs: seq<Candidate>, ds: seq<Candidate>, x: Candidate)
    requires multiset(cs) == multiset(ds)
    ensures x in cs <==> x in ds
  {
    assert x in multiset(cs) <==> x in multiset(ds);
  }

  lemma KeyIdentifies(cs: seq<Candidate>, x: Candidate, y: Candidate)
    requires Distinct(cs) && x in cs && y in cs && SameKey(x, y)
    ensures x == y
  {
    var i :| 0 <= i < |cs| && cs[i] == x;
    var j :| 0 <= j < |cs| && cs[j] == y;
    assert i == j;
  }

  // ---- Import ----------------------------------------------------------------------------

  /** One provider's group in the catalog: its models by key, or no such object. */
  datatype Group =
    | NoModels(provider: string)
    | NotAnObject(provider: string)
    | Models(provider: string, models: seq<Model>)

  datatype Model = Model(key: string, value: SN.Json)

  datatype Import =
    | Imported(candidates: seq<Candidate>)
    | BadGroup(provider: string)
    | BlankId
    | Duplicate(provider: string, id: string)

  predicate Blank(s: string) { forall i :: 0 <= i < |s| ==> SN.IsSpace(s[i]) }

  function IdOf(m: Model): string {
    var id := SN.Get(m.value, "id");
    if id.Some? && id.value.Str? && !Blank(id.value.s) then id.value.s else m.key
  }

  function CandidateOf(provider: string, m: Model): Candidate { Candidate(IdOf(m), provider, m.value) }

  function Listed(provider: string, models: seq<Model>): seq<Candidate> {
    if models == [] then []
    else Listed(provider, models[..|models| - 1]) + [CandidateOf(provider, models[|models| - 1])]
  }

  function AllListed(groups: seq<Group>): seq<Candidate> {
    if groups == [] then []
    else
      var g := groups[|groups| - 1];
      AllListed(groups[..|groups| - 1]) + if g.Models? then Listed(g.provider, g.models) else []
  }

  /** What the import demands of a list of candidates. */
  ghost predicate Clean(cs: seq<Candidate>) {
    Distinct(cs) && forall i :: 0 <= i < |cs| ==> !Blank(cs[i].id)
  }

  ghost predicate Seen(cs: seq<Candidate>, seen: set<(string, string)>) {
    forall p, id :: (p, id) in seen <==> exists i :: 0 <= i < |cs| && cs[i].provider == p && cs[i].id == id
  }

  lemma SeenMore(cs: seq<Candidate>, seen: set<(string, string)>, c: Candidate)
    requires Clean(cs) && Seen(cs, seen)
    ensures Seen(cs + [c], seen + {(c.provider, c.id)})
    ensures Clean(cs + [c]) <==> (c.provider, c.id) !in seen && !Blank(c.id)
  {
    hide Blank;
    var ds := cs + [c];
    assert forall i :: 0 <= i < |cs| ==> ds[i] == cs[i];
    assert ds[|cs|] == c;
    forall p, id | (p, id) in seen + {(c.provider, c.id)}
      ensures exists i :: 0 <= i < |ds| && ds[i].provider == p && ds[i].id == id
    {
      if (p, id) in seen {
        var i :| 0 <= i < |cs| && cs[i].provider == p && cs[i].id == id;
        assert ds[i].provider == p && ds[i].id == id;
      } else {
        assert ds[|cs|].provider == p && ds[|cs|].id == id;
      }
    }
    if (c.provider, c.id) in seen {
      var i :| 0 <= i < |cs| && cs[i].provider == c.provider && cs[i].id == c.id;
      assert SameKey(ds[i], ds[|cs|]);
    }
  }

  lemma CleanPrefix(a: seq<Candidate>, b: seq<Candidate>)
    requires Clean(a + b)
    ensures Clean(a)
  {
    hide Blank;
    assert forall i :: 0 <= i < |a| ==> (a + b)[i] == a[i];
  }

  /** The inner loop of `import_json`, on one provider's models. */
  method AddGroup(g: Group, candidates: seq<Candidate>, seen: set<(string, string)>)
    returns (r: Import, seen': set<(string, string)>)
    requires g.Models? && Clean(candidates) && Seen(candidates, seen)
    ensures r.Imported? <==> Clean(candidates + Listed(g.provider, g.models))
    ensures r.Imported? ==> r.candidates == candidates + Listed(g.provider, g.models) && Seen(r.candidates, seen')
    ensures Faulty(r, candidates + Listed(g.provider, g.models))
    ensures !r.BadGroup?
  {
    hide Clean, Seen, Blank, IdOf, Faulty;
    seen' := seen;
    var cs := candidates;
    ghost var all := candidates + Listed(g.provider, g.models);
    for i := 0 to |g.models|
      invariant cs == candidates + Listed(g.provider, g.models[..i]) && Clean(cs) && Seen(cs, seen')
    {
      assert g.models[..i + 1][..i] == g.models[..i];
      var c := CandidateOf(g.provider, g.models[i]);
      SeenMore(cs, seen', c);
      ghost var rest := ListedFrom(g.provider, g.models, i);
      assert all == cs + ([c] + rest) && cs + ([c] + rest) == (cs + [c]) + rest;
      if Clean(all) {
        CleanPrefix(cs + [c], rest);
      }
      if Blank(c.id) {
        FaultyBlank(all, |cs|);
        return BlankId, seen';
      }
      if (c.provider, c.id) in seen' {
        FaultyTwice(cs, seen', c, rest);
        return Duplicate(c.provider, c.id), seen';
      }
      seen' := seen' + {(c.provider, c.id)};
      cs := cs + [c];
      assert cs == candidates + Listed(g.provider, g.models[..i + 1]);
    }
    assert g.models[..|g.models|] == g.models;
    r := Imported(cs);
    assert Faulty(r, all) by { Fine(cs); }
  }

  /** An error names a fault that is there. */
  ghost predicate Faulty(r: Import, cs: seq<Candidate>) {
    match r
    case BlankId => exists i :: 0 <= i < |cs| && Blank(cs[i].id)
    case Duplicate(p, id) =>
      exists i, j :: 0 <= i < j < |cs| && cs[i].provider == p == cs[j].provider && cs[i].id == id == cs[j].id
    case _ => true
  }

  lemma Fine(cs: seq<Candidate>)
    ensures Faulty(Imported(cs), cs)
  {
  }

  lemma FaultyBlank(cs: seq<Candidate>, i: nat)
    requires i < |cs| && Blank(cs[i].id)
    ensures Faulty(BlankId, cs) && !Clean(cs)
  {
    hide Blank;
  }

  lemma FaultyTwice(cs: seq<Candidate>, seen: set<(string, string)>, c: Candidate, rest: seq<Candidate>)
    requires Seen(cs, seen) && (c.provider, c.id) in seen
    ensures Faulty(Duplicate(c.provider, c.id), (cs + [c]) + rest) && !Clean((cs + [c]) + rest)
  {
    hide Blank;
    var all := (cs + [c]) + rest;
    var i :| 0 <= i < |cs| && cs[i].provider == c.provider && cs[i].id == c.id;
    assert all[i] == cs[i] && all[|cs|] == c;
    assert SameKey(all[i], all[|cs|]);
  }

  lemma {:induction false} ListedFrom(provider: string, models: seq<Model>, i: nat) returns (rest: seq<Candidate>)
    requires i < |models|
    ensures Listed(provider, models) == Listed(provider, models[..i]) + ([CandidateOf(provider, models[i])] + rest)
  {
    hide CandidateOf;
    if i == |models| - 1 {
      rest := [];
    } else {
      var n := |models| - 1;
      var front := ListedFrom(provider, models[..n], i);
      assert models[..n][..i] == models[..i];
      rest := front + [CandidateOf(provider, models[n])];
    }
  }

  lemma {:induction false} AllListedFrom(groups: seq<Group>, i: nat) returns (rest: seq<Candidate>)
    requires i <= |groups|
    ensures AllListed(groups) == AllListed(groups[..i]) + rest
  {
    hide Listed;
    if i == |groups| {
      assert groups[..i] == groups;
      rest := [];
    } else {
      var n := |groups| - 1;
      var front := AllListedFrom(groups[..n], i);
      assert groups[..n][..i] == groups[..i];
      rest := front + if groups[n].Models? then Listed(groups[n].provider, groups[n].models) else [];
    }
  }

  /**
   The collecting loops of `import_json`: they accept a catalog exactly when every group's models form
   an object and the models listed have non-blank ids and distinct (provider, id); an error is real.
   */
  method ImportCatalog(groups: seq<Group>) returns (r: Import)
    ensures r.Imported? <==> Clean(AllListed(groups)) && forall g :: g in groups ==> !g.NotAnObject?
    ensures r.Imported? ==> r.candidates == AllListed(groups)
    ensures r.BadGroup? ==> NotAnObject(r.provider) in groups
    ensures Faulty(r, AllListed(groups))
  {
    hide Clean, Seen, Listed, Faulty;
    var cs: seq<Candidate> := [];
    var seen: set<(string, string)> := {};
    NothingSeen();
    for i := 0 to |groups|
      invariant cs == AllListed(groups[..i]) && Clean(cs) && Seen(cs, seen)
      invariant forall g :: g in groups[..i] ==> !g.NotAnObject?
    {
      assert groups[..i + 1] == groups[..i] + [groups[i]] && groups[..i + 1][..i] == groups[..i];
      var g := groups[i];
      if g.NoModels? {
        continue;
      }
      if g.NotAnObject? {
        assert Faulty(BadGroup(g.provider), AllListed(groups)) by { NotFaulty(g.provider, AllListed(groups)); }
        return BadGroup(g.provider);
      }
      var added;
      added, seen := AddGroup(g, cs, seen);
      if !added.Imported? {
        ghost var rest := AllListedFrom(groups, i + 1);
        FaultyStill(added, AllListed(groups[..i + 1]), rest);
        return added;
      }
      cs := added.candidates;
    }
    assert groups[..|groups|] == groups;
    Fine(cs);
    return Imported(cs);
  }

  lemma NothingSeen()
    ensures Clean([]) && Seen([], {})
  {
  }

  lemma NotFaulty(provider: string, cs: seq<Candidate>)
    ensures Faulty(BadGroup(provider), cs)
  {
  }

  lemma FaultyStill(r: Import, cs: seq<Candidate>, more: seq<Candidate>)
    requires Faulty(r, cs) && !Clean(cs) && !r.Imported?
    ensures Faulty(r, cs + more) && !Clean(cs + more)
  {
    hide Blank;
    var all := cs + more;
    assert forall i :: 0 <= i < |cs| ==> all[i] == cs[i];
    if Clean(all) {
      CleanPrefix(cs, more);
    }
    if r.Duplicate? {
      var i, j :| 0 <= i < j < |cs| && cs[i].provider == r.provider == cs[j].provider && cs[i].id == r.id == cs[j].id;
      assert all[i].provider == r.provider == all[j].provider && all[i].id == r.id == all[j].id;
    }
    if r.BlankId? {
      var i :| 0 <= i < |cs| && Blank(cs[i].id);
      assert Blank(all[i].id);
    }
  }
}
