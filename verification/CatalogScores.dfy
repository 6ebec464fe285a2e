/**
 What the scores of `src/model_import.rs` amount to: which strings match, and which of two matches is
 picked, as a comparison of how they match, whose provider is configured and how known that provider is.
 */
module CatalogScores {
  import opened Wrappers
  import opened Sequences
  import opened ThinkTags
  import opened Catalog
  import SN = StreamNormalize

  // ---- Matching --------------------------------------------------------------------------

  /** One is the other behind some path. */
  ghost predicate Qualified(destination: string, id: string) {
    exists p :: destination == p + "/" + id || id == p + "/" + destination
  }

  ghost predicate Part(destination: string, id: string) { exists p, q :: destination == p + id + q }

  lemma EndsExactly(s: string, t: string)
    ensures EndsWith(s, "/" + t) <==> exists p :: s == p + "/" + t
  {
    if EndsWith(s, "/" + t) {
      var n := |s| - |"/" + t|;
      assert s == s[..n] + s[n..];
      Assoc(s[..n], "/", t);
    }
    forall p | s == p + "/" + t ensures EndsWith(s, "/" + t) {
      Assoc(p, "/", t);
      assert s[|p|..] == "/" + t;
    }
  }

  lemma ContainsAt(s: string, t: string, i: nat)
    requires i <= |s| && t <= s[i..]
    ensures Part(s, t)
  {
    var q := s[i..][|t|..];
    assert s[i..] == t + q && s == s[..i] + s[i..];
    Assoc(s[..i], t, q);
  }

  lemma PartContained(s: string, p: string, t: string, q: string)
    requires s == p + t + q
    ensures Contains(s, t)
  {
    Assoc(p, t, q);
    assert s[|p|..] == t + q;
  }

  lemma PartExactly(s: string, t: string)
    ensures Contains(s, t) <==> Part(s, t)
  {
    if Contains(s, t) {
      var i :| 0 <= i <= |s| && t <= s[i..];
      ContainsAt(s, t, i);
    } else if Part(s, t) {
      var p, q :| s == p + t + q;
      PartContained(s, p, t, q);
    }
  }

  /** A match is the same string, the same behind a path, or contained in the name asked for. */
  lemma MatchesExactly(destination: string, id: string)
    ensures BySuffix(destination, id) <==> Qualified(destination, id)
    ensures Matches(destination, id) <==> destination == id || Qualified(destination, id) || Part(destination, id)
  {
    hide EndsWith, Contains, Part;
    EndsExactly(destination, id);
    EndsExactly(id, destination);
    PartExactly(destination, id);
  }

  // ---- Normalised names ------------------------------------------------------------------

  /** Names are compared character by character, */
  lemma {:induction false} NormSplit(s: string, t: string)
    ensures Norm(s + t) == Norm(s) + Norm(t)
  {
    hide NormChar;
    if s == "" {
      PrependEmpty(t);
    } else {
      NormSplit(s[1..], t);
      assert (s + t)[1..] == s[1..] + t;
      Assoc(NormChar(s[0]), Norm(s[1..]), Norm(t));
    }
  }

  /** without hyphens, underscores, spaces and, in ASCII, case. */
  lemma NormOne(c: char)
    ensures c in "-_ " ==> Norm([c]) == ""
    ensures 'A' <= c <= 'Z' ==> Norm([c]) == [(c as int + 32) as char]
    ensures c !in "-_ " && !('A' <= c <= 'Z') ==> Norm([c]) == [c]
  {
    assert [c][1..] == "";
  }

  /** Vendors and the kinds of provider that also serve their models. */
  const SERVED_BY: set<(string, string)> :=
    {("xai", "openai"), ("xai", "azure"), ("deepseek", "openai"), ("zai", "openai"), ("zhipuai", "openai"),
      ("zhipu", "openai"), ("google", "gemini"), ("openai", "azure"), ("azureopenai", "azure"),
      ("azureopenai", "openai")}

  lemma CompatibleExactly(source: string, row: Row)
    ensures Compatible(source, row) <==>
            Norm(source) in {Norm(row.id), Norm(row.kind)} || (Norm(source), Norm(row.kind)) in SERVED_BY
  {
    hide Norm;
  }

  const RANKS: map<string, int> :=
    map["openai" := 15, "anthropic" := 15, "google" := 15, "xai" := 15, "deepseek" := 15, "mistral" := 15,
      "zai" := 14, "zhipuai" := 13, "zhipu" := 12, "groq" := 11]

  lemma RankExactly(provider: string)
    ensures CanonicalRank(provider) == if Norm(provider) in RANKS then RANKS[Norm(provider)] else 0
  {
    hide Norm;
  }

  // ---- Comparing -------------------------------------------------------------------------

  /** How well the id matches, from 0: by its length up to 20 if contained, 21 behind a path, 22 the same. */
  ghost function Tier(destination: string, c: Candidate): nat {
    if c.id == destination then 22
    else if Qualified(destination, c.id) then 21
    else if ByteLen(c.id) < 20 then ByteLen(c.id)
    else 20
  }

  /** Some configured provider is compatible with the candidate's. */
  predicate Configured(rows: seq<Row>, c: Candidate) {
    exists i :: 0 <= i < |rows| && Compatible(c.provider, rows[i])
  }

  /** By how much `b`'s provider is worth more than `a`'s. */
  function Lead(rows: seq<Row>, a: Candidate, b: Candidate): int {
    (if Configured(rows, b) then 20 else 0) + CanonicalRank(b.provider)
    - (if Configured(rows, a) then 20 else 0) - CanonicalRank(a.provider)
  }

  lemma RankBounds(provider: string)
    ensures 0 <= CanonicalRank(provider) <= 15
  {
    hide Norm;
  }

  /** How far apart the scores of two matches are. */
  lemma ScoreGap(destination: string, rows: seq<Row>, a: Candidate, b: Candidate)
    requires Matches(destination, a.id) && Matches(destination, b.id)
    ensures var s, t := Tier(destination, a), Tier(destination, b);
            Score(destination, a, rows) - Score(destination, b, rows) + Lead(rows, a, b) ==
            (if s == 22 then 100 else if s == 21 then 80 else 40 + s) -
            (if t == 22 then 100 else if t == 21 then 80 else 40 + t)
    ensures -35 <= Lead(rows, a, b) <= 35
  {
    hide Matches, BySuffix, Contains, Qualified, Part, ByteLen, CanonicalRank, Compatible;
    MatchesExactly(destination, a.id);
    MatchesExactly(destination, b.id);
    RankBounds(a.provider);
    RankBounds(b.provider);
    PartExactly(destination, a.id);
    PartExactly(destination, b.id);
  }

  /** Among one provider's models the better match is picked. */
  lemma SameProvider(destination: string, rows: seq<Row>, a: Candidate, b: Candidate)
    requires Matches(destination, a.id) && Matches(destination, b.id) && a.provider == b.provider
    ensures var s, t := Tier(destination, a), Tier(destination, b);
            Beats(destination, rows, a, b) <==> s > t || (s == t && TieLess(a, b))
  {
    hide Matches, Tier, Score, TieLess, Compatible, CanonicalRank;
    ScoreGap(destination, rows, a, b);
    TierBound(destination, a);
    TierBound(destination, b);
  }

  lemma TierBound(destination: string, c: Candidate)
    ensures Tier(destination, c) <= 22
  {
    hide Qualified, ByteLen;
  }

  /** Between equal matches a configured provider is picked, then the better known one. */
  lemma SameTier(destination: string, rows: seq<Row>, a: Candidate, b: Candidate)
    requires Matches(destination, a.id) && Matches(destination, b.id)
    requires Tier(destination, a) == Tier(destination, b)
    ensures var p, q := Configured(rows, a), Configured(rows, b);
            var m, n := CanonicalRank(a.provider), CanonicalRank(b.provider);
            Beats(destination, rows, a, b) <==> (p && !q) || (p == q && (m > n || (m == n && TieLess(a, b))))
  {
    hide Matches, Tier, Score, TieLess, Compatible, CanonicalRank;
    ScoreGap(destination, rows, a, b);
    RankBounds(a.provider);
    RankBounds(b.provider);
  }

  /** Nothing else about a contained id makes up for an exact match. */
  lemma ExactOverContained(destination: string, rows: seq<Row>, a: Candidate, b: Candidate)
    requires a.id == destination && Part(destination, b.id) && !Qualified(destination, b.id) && b.id != destination
    ensures Beats(destination, rows, a, b)
  {
    hide Part, Qualified, Score, TieLess, Lead, ByteLen;
    MatchesExactly(destination, a.id);
    MatchesExactly(destination, b.id);
    ScoreGap(destination, rows, a, b);
  }

  /**
   An exact match loses to one behind a path exactly if only the other's provider is configured, and it is
   better known, or as well known and ahead in a tie.
   */
  lemma ExactAgainstQualified(destination: string, rows: seq<Row>, a: Candidate, b: Candidate)
    requires a.id == destination && Qualified(destination, b.id) && b.id != destination
    ensures var m, n := CanonicalRank(a.provider), CanonicalRank(b.provider);
            Beats(destination, rows, b, a) <==>
            && Configured(rows, b) && !Configured(rows, a)
            && (n > m || (n == m && TieLess(b, a)))
  {
    hide Part, Qualified, Score, TieLess, Compatible, CanonicalRank, ByteLen, Matches;
    MatchesExactly(destination, a.id);
    MatchesExactly(destination, b.id);
    ScoreGap(destination, rows, a, b);
    RankBounds(a.provider);
    RankBounds(b.provider);
  }

  /** A contained id loses to one behind a path unless its provider makes up for what is missing in length. */
  lemma QualifiedAgainstContained(destination: string, rows: seq<Row>, a: Candidate, b: Candidate)
    requires a.id != destination && b.id != destination
    requires Qualified(destination, a.id) && Part(destination, b.id) && !Qualified(destination, b.id)
    ensures var missing := if ByteLen(b.id) < 20 then 40 - ByteLen(b.id) else 20;
            Beats(destination, rows, b, a) <==>
            Lead(rows, a, b) > missing || (Lead(rows, a, b) == missing && TieLess(b, a))
  {
    hide Part, Qualified, Score, TieLess, Lead, ByteLen, Matches;
    MatchesExactly(destination, a.id);
    MatchesExactly(destination, b.id);
    ScoreGap(destination, rows, a, b);
  }

  // ---- Ties ------------------------------------------------------------------------------

  /** `a` ends where `b` goes on, or has the smaller character where they first differ, at `i`. */
  predicate FirstLess(a: string, b: string, i: nat) {
    i <= |a| && i < |b| && a[..i] == b[..i] && (i == |a| || a[i] < b[i])
  }

  lemma {:induction false} LessAt(a: string, b: string, i: nat)
    requires FirstLess(a, b, i)
    ensures LexLess(a, b)
  {
    if i > 0 {
      assert a[0] == a[..i][0] == b[..i][0] == b[0];
      assert a[1..][..i - 1] == a[..i][1..] && b[1..][..i - 1] == b[..i][1..];
      LessAt(a[1..], b[1..], i - 1);
    }
  }

  lemma {:induction false} WhereLess(a: string, b: string) returns (i: nat)
    requires LexLess(a, b)
    ensures FirstLess(a, b, i)
  {
    i := 0;
    if a != "" && a[0] == b[0] {
      var j := WhereLess(a[1..], b[1..]);
      i := j + 1;
      assert a[..i] == [a[0]] + a[1..][..j] && b[..i] == [b[0]] + b[1..][..j];
    }
  }

  /** Of two equal scores, a candidate with a cost wins; otherwise the provider, then the id, that sorts first. */
  lemma TieExactly(a: Candidate, b: Candidate)
    ensures var p, q := a.value.Obj? && "cost" in a.value.fields, b.value.Obj? && "cost" in b.value.fields;
            TieLess(a, b) <==>
            || (p && !q)
            || (p == q && exists i: nat :: FirstLess(a.provider, b.provider, i))
            || (p == q && a.provider == b.provider && exists i: nat :: FirstLess(a.id, b.id, i))
  {
    hide LexLess, FirstLess;
    LexExactly(a.provider, b.provider);
    LexExactly(a.id, b.id);
  }

  lemma LexExactly(a: string, b: string)
    ensures LexLess(a, b) <==> exists i: nat :: FirstLess(a, b, i)
  {
    hide LexLess, FirstLess;
    if LexLess(a, b) {
      var i := WhereLess(a, b);
    } else if i: nat :| FirstLess(a, b, i) {
      LessAt(a, b, i);
    }
  }

  // ---- Import ----------------------------------------------------------------------------

  /** The value has the id, a string with something else than white space in it. */
  predicate GivesId(v: SN.Json, id: string) {
    SN.Get(v, "id") == Some(SN.Str(id)) && exists k :: 0 <= k < |id| && !SN.IsSpace(id[k])
  }

  /** A model is listed under the id it gives, or else under its key. */
  lemma {:induction false} ListedIs(provider: string, models: seq<Model>, i: nat)
    requires i < |models|
    ensures |Listed(provider, models)| == |models|
    ensures var c, v := Listed(provider, models)[i], models[i].value;
            && c.provider == provider && c.value == v
            && (GivesId(v, c.id) || (c.id == models[i].key && !exists id :: GivesId(v, id)))
  {
    hide SN.IsSpace;
    var n := |models| - 1;
    if n > 0 {
      ListedIs(provider, models[..n], if i < n then i else 0);
    }
  }
}
