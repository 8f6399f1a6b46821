/**
 * Ranking the catalog against what an image model read off a photo: the
 * word-overlap score of a catalog name against the search terms, the
 * faction bonus, and the shortlist of at most six matches with their
 * confidences. The model call itself is not part of this module; its reply
 * enters as the three strings `character`, `variant` and `faction`.
 */
module GeminiService {
  import opened Types
  import opened Strings
  import opened Seqs
  import opened Sorting

  // ---------------------------------------------------------------------
  // Words
  // ---------------------------------------------------------------------

  /** A character of the class `[\s,\-/()]` that names are split on. */
  predicate IsSeparator(c: char)
  {
    IsSpace(c) || c == ',' || c == '-' || c == '/' || c == '(' || c == ')'
  }

  predicate NotSeparator(c: char) { !IsSeparator(c) }

  /** The text between separators: one piece more than there are separators, empty pieces included. */
  function Pieces(s: string): (r: seq<string>)
    ensures |r| >= 1
    ensures forall k, c :: 0 <= k < |r| && c in r[k] ==> !IsSeparator(c)
  {
    if s == [] then [""]
    else
      var rest := Pieces(s[1..]);
      if IsSeparator(s[0]) then [""] + rest
      else [[s[0]] + rest[0]] + rest[1..]
  }

  /** The pieces laid end to end. */
  function Concat(ps: seq<string>): string
  {
    if ps == [] then "" else ps[0] + Concat(ps[1..])
  }

  /** Splitting loses exactly the separators: the pieces hold the other characters, in order. */
  lemma {:induction false} PiecesKeepText(s: string)
    ensures Concat(Pieces(s)) == Filter(s, NotSeparator)
  {
    if s != [] {
      var rest := Pieces(s[1..]);
      PiecesKeepText(s[1..]);
      assert Concat(rest) == Filter(s[1..], NotSeparator);
      if IsSeparator(s[0]) {
        var ps := [""] + rest;
        assert Pieces(s) == ps;
        assert ps[1..] == rest;
        assert Concat(ps) == Concat(rest);
        assert Filter(s, NotSeparator) == Filter(s[1..], NotSeparator);
      } else {
        var ps := [[s[0]] + rest[0]] + rest[1..];
        assert Pieces(s) == ps;
        assert ps[1..] == rest[1..];
        assert Concat(ps) == [s[0]] + rest[0] + Concat(rest[1..]);
        assert Concat(rest) == rest[0] + Concat(rest[1..]);
        assert Filter(s, NotSeparator) == [s[0]] + Filter(s[1..], NotSeparator);
      }
    }
  }

  /** Each separator ends one piece. */
  lemma {:induction false} PiecesCount(s: string)
    ensures |Pieces(s)| == |Filter(s, IsSeparator)| + 1
  {
    if s != [] {
      PiecesCount(s[1..]);
      assert s == [s[0]] + s[1..];
    }
  }

  predicate IsWord(w: string) { |w| > 1 }

  /**
   * `s.split(/[\s,\-/()]+/).filter(w => w.length > 1)`. Splitting at every
   * separator instead of at runs of them only adds empty pieces, which the
   * length filter drops.
   */
  function Words(s: string): (r: seq<string>)
    ensures forall w :: w in r ==> |w| > 1 && w in Pieces(s)
  {
    Filter(Pieces(s), IsWord)
  }

  // ---------------------------------------------------------------------
  // The name score
  // ---------------------------------------------------------------------

  /** Some name word contains `tw` or lies inside it. */
  predicate Related(tw: string, nameWords: seq<string>)
  {
    exists nw :: nw in nameWords && (Contains(nw, tw) || Contains(tw, nw))
  }

  lemma ContainsSelf(s: string)
    ensures Contains(s, s)
  {
    assert OccursAt(s, s, 0);
  }

  /** What one term word earns: 10 for an equal name word, else 5 for a related one, else 0. */
  function WordPoints(tw: string, nameWords: seq<string>): (r: int)
    ensures r == 10 <==> tw in nameWords
    ensures r > 0 <==> Related(tw, nameWords)
    ensures r == 0 || r == 5 || r == 10
  {
    if tw in nameWords then
      ContainsSelf(tw);
      10
    else if Related(tw, nameWords) then 5
    else 0
  }

  function WordScorer(nameWords: seq<string>): string -> int
  {
    tw => WordPoints(tw, nameWords)
  }

  /** A sum of weights each at most `m` is at most `m` times the length. */
  lemma {:induction false} SumOfAtMost<T>(s: seq<T>, w: T -> int, m: int)
    requires forall x :: x in s ==> w(x) <= m
    ensures SumOf(s, w) <= m * |s|
  {
    if s != [] {
      SumOfAtMost(s[..|s| - 1], w, m);
      assert s[|s| - 1] in s;
    }
  }

  /**
   * What one search term earns against a name: a term inside the name earns
   * 50 plus twice its length and its words are not looked at; otherwise
   * each of its words earns its points against the name's words.
   */
  function TermPoints(term: string, nameLower: string, nameWords: seq<string>): (r: int)
    ensures r >= 0
    ensures Contains(nameLower, ToLower(term)) ==> r == 50 + 2 * |term|
    ensures !Contains(nameLower, ToLower(term)) ==> r <= 10 * |Words(ToLower(term))|
  {
    var termLower := ToLower(term);
    if Contains(nameLower, termLower) then 50 + 2 * |termLower|
    else
      SumOfNonNeg(Words(termLower), WordScorer(nameWords));
      SumOfAtMost(Words(termLower), WordScorer(nameWords), 10);
      SumOf(Words(termLower), WordScorer(nameWords))
  }

  function TermScorer(nameLower: string, nameWords: seq<string>): string -> int
  {
    t => TermPoints(t, nameLower, nameWords)
  }

  /** `scoreMatch(searchTerms, name)`: the terms' points against the lowercased name, added up. */
  function Score(terms: seq<string>, name: string): (r: int)
    ensures r >= 0
    ensures terms == [] ==> r == 0
  {
    var nameLower := ToLower(name);
    SumOfNonNeg(terms, TermScorer(nameLower, Words(nameLower)));
    SumOf(terms, TermScorer(nameLower, Words(nameLower)))
  }

  /** Terms score independently: the score of two term lists together is the sum of their scores. */
  lemma ScoreAppend(a: seq<string>, b: seq<string>, name: string)
    ensures Score(a + b, name) == Score(a, name) + Score(b, name)
  {
    var nameLower := ToLower(name);
    SumOfAppend(a, b, TermScorer(nameLower, Words(nameLower)));
  }

  /** The inner loop of `scoreMatch`: each term word adds its points against the name's words. */
  method ScoreWords(termWords: seq<string>, nameWords: seq<string>) returns (points: int)
    ensures points == SumOf(termWords, WordScorer(nameWords))
  {
    points := 0;
    for j := 0 to |termWords|
      invariant points == SumOf(termWords[..j], WordScorer(nameWords))
    {
      var tw := termWords[j];
      if tw in nameWords {
        points := points + 10;
      } else if exists nw :: nw in nameWords && (Contains(nw, tw) || Contains(tw, nw)) {
        points := points + 5;
      }
      assert termWords[..j + 1][..j] == termWords[..j];
    }
    assert termWords[..|termWords|] == termWords;
  }

  /** One turn of the outer loop of `scoreMatch`: the points of one term. */
  method ScoreTerm(term: string, nameLower: string, nameWords: seq<string>) returns (points: int)
    ensures points == TermPoints(term, nameLower, nameWords)
  {
    var termLower := ToLower(term);
    if Contains(nameLower, termLower) {
      points := 50 + |termLower| * 2;
    } else {
      points := ScoreWords(Words(termLower), nameWords);
    }
  }

  /** The outer loop of `scoreMatch`, over the lowercased name and its words. */
  method ScoreTerms(searchTerms: seq<string>, nameLower: string, nameWords: seq<string>) returns (score: int)
    ensures score == SumOf(searchTerms, TermScorer(nameLower, nameWords))
  {
    score := 0;
    for i := 0 to |searchTerms|
      invariant score == SumOf(searchTerms[..i], TermScorer(nameLower, nameWords))
    {
      var points := ScoreTerm(searchTerms[i], nameLower, nameWords);
      score := score + points;
      assert searchTerms[..i + 1][..i] == searchTerms[..i];
    }
    assert searchTerms[..|searchTerms|] == searchTerms;
  }

  /** `scoreMatch(searchTerms, name)`. */
  method ScoreMatch(searchTerms: seq<string>, name: string) returns (score: int)
    ensures score == Score(searchTerms, name)
  {
    var nameLower := ToLower(name);
    score := ScoreTerms(searchTerms, nameLower, Words(nameLower));
  }

  // ---------------------------------------------------------------------
  // Ranking
  // ---------------------------------------------------------------------

  /** A catalog figure with its score. */
  datatype Scored = Scored(minifig: CatalogMinifig, score: int)

  /** One shortlisted match, as shown to the user. */
  datatype ScanMatch = ScanMatch(id: string, name: string, confidence: real, reasoning: string, minifig: CatalogMinifig)

  predicate NonEmpty(s: string) { s != "" }

  /** `[character, variant, faction].filter(Boolean)`: the non-empty ones, in that order. */
  function SearchTerms(character: string, variant: string, faction: string): (r: seq<string>)
    ensures forall t :: t in r <==> t != "" && (t == character || t == variant || t == faction)
  {
    Filter([character, variant, faction], NonEmpty)
  }

  /** 15 when the model named a faction and the figure's faction contains it, ignoring case. */
  function FactionBonus(faction: string, m: CatalogMinifig): (r: int)
    ensures r == 15 <==> faction != "" && Contains(ToLower(m.faction), ToLower(faction))
    ensures r == 0 || r == 15
  {
    if faction != "" && Contains(ToLower(m.faction), ToLower(faction)) then 15 else 0
  }

  function Scorer(terms: seq<string>, faction: string): CatalogMinifig -> Scored
  {
    (m: CatalogMinifig) => Scored(m, Score(terms, m.name) + FactionBonus(faction, m))
  }

  predicate Positive(s: Scored) { s.score > 0 }

  /** The comparator `(a, b) => b.score - a.score`. */
  function HighestFirst(a: Scored, b: Scored): int { b.score - a.score }

  /** The catalog scored by `score`, the zero scores dropped, highest score first. */
  function RankOf(catalog: seq<CatalogMinifig>, score: CatalogMinifig -> Scored): seq<Scored>
  {
    Sort(Filter(MapSeq(catalog, score), Positive), HighestFirst)
  }

  /** The scored catalog with the zero scores dropped, highest score first. */
  function Ranked(catalog: seq<CatalogMinifig>, terms: seq<string>, faction: string): seq<Scored>
  {
    RankOf(catalog, Scorer(terms, faction))
  }

  /** `scored[0]?.score ?? 0`. */
  function TopScore(ranked: seq<Scored>): int
  {
    if ranked == [] then 0 else ranked[0].score
  }

  /** A score of at least 30% of the top one. */
  function Close(top: int): Scored -> bool
  {
    (s: Scored) => s.score as real >= top as real * 0.3
  }

  /** The first six, less those below 30% of the top score. */
  function Shortlist(ranked: seq<Scored>): seq<Scored>
  {
    Filter(Take(ranked, 6), Close(TopScore(ranked)))
  }

  /** `Math.min(score / Math.max(top, 1), 0.99)`. */
  function Confidence(score: int, top: int): real
  {
    var c := score as real / (if top > 1 then top else 1) as real;
    if c < 0.99 then c else 0.99
  }

  /** The character, then ` — ` and the variant when there is one. */
  function Reasoning(character: string, variant: string): string
  {
    character + (if variant != "" then " — " + variant else "")
  }

  function ToMatch(top: int, reasoning: string): Scored -> ScanMatch
  {
    (s: Scored) => ScanMatch(s.minifig.id, s.minifig.name, Confidence(s.score, top), reasoning, s.minifig)
  }

  /** The matches shown for a catalog scored by `score`. */
  function MatchesOf(catalog: seq<CatalogMinifig>, score: CatalogMinifig -> Scored, reasoning: string): seq<ScanMatch>
  {
    var ranked := RankOf(catalog, score);
    MapSeq(Shortlist(ranked), ToMatch(TopScore(ranked), reasoning))
  }

  /** The matches `identifyMinifig` returns for the model's reply. */
  function Identify(catalog: seq<CatalogMinifig>, character: string, variant: string, faction: string): seq<ScanMatch>
  {
    MatchesOf(catalog, Scorer(SearchTerms(character, variant, faction), faction), Reasoning(character, variant))
  }

  // ---------------------------------------------------------------------
  // What the ranking promises
  // ---------------------------------------------------------------------

  lemma HighestFirstConsistent()
    ensures Consistent(HighestFirst)
  {
  }

  /** A scoring function that tags each figure with its own record. */
  ghost predicate Tags(score: CatalogMinifig -> Scored)
  {
    forall m :: score(m).minifig == m
  }

  /**
   * The ranking is sorted highest first and holds exactly the positively
   * scored figures of the catalog.
   */
  lemma RankOfShape(catalog: seq<CatalogMinifig>, score: CatalogMinifig -> Scored)
    requires Tags(score)
    ensures Sorted(RankOf(catalog, score), HighestFirst)
    ensures forall s: Scored :: s in RankOf(catalog, score) ==> s.score > 0 && s.minifig in catalog && s == score(s.minifig)
    ensures forall m :: m in catalog && score(m).score > 0 ==> score(m) in RankOf(catalog, score)
  {
    HighestFirstConsistent();
    SortSorted(Filter(MapSeq(catalog, score), Positive), HighestFirst);
    forall s | s in RankOf(catalog, score) ensures s.score > 0 && s.minifig in catalog && s == score(s.minifig) {
      RankedFrom(catalog, score, s);
    }
    forall m | m in catalog && score(m).score > 0 ensures score(m) in RankOf(catalog, score) {
      RankedHas(catalog, score, m);
    }
  }

  lemma RankedFrom(catalog: seq<CatalogMinifig>, score: CatalogMinifig -> Scored, s: Scored)
    requires Tags(score) && s in RankOf(catalog, score)
    ensures s.score > 0 && s.minifig in catalog && s == score(s.minifig)
  {
    var scored := MapSeq(catalog, score);
    assert s in multiset(RankOf(catalog, score));
    assert s in Filter(scored, Positive);
    var i :| 0 <= i < |scored| && scored[i] == s;
    MapSeqAt(catalog, score, i);
  }

  lemma RankedHas(catalog: seq<CatalogMinifig>, score: CatalogMinifig -> Scored, m: CatalogMinifig)
    requires m in catalog && score(m).score > 0
    ensures score(m) in RankOf(catalog, score)
  {
    var kept := Filter(MapSeq(catalog, score), Positive);
    var i :| 0 <= i < |catalog| && catalog[i] == m;
    MapSeqAt(catalog, score, i);
    assert score(m) in kept;
    assert score(m) in multiset(RankOf(catalog, score));
  }

  /**
   * The shortlist of a ranking sorted highest first: at most six, still
   * sorted, each at least 30% of and at most the top score, and led by the
   * top entry whenever the ranking is not empty.
   */
  lemma ShortlistShape(ranked: seq<Scored>)
    requires Sorted(ranked, HighestFirst)
    requires forall s: Scored :: s in ranked ==> s.score > 0
    ensures |Shortlist(ranked)| <= 6
    ensures Sorted(Shortlist(ranked), HighestFirst)
    ensures forall s: Scored :: s in Shortlist(ranked) ==> s in ranked && 0 < s.score <= TopScore(ranked)
    ensures forall s: Scored :: s in Shortlist(ranked) ==> s.score as real >= TopScore(ranked) as real * 0.3
    ensures ranked != [] ==> Shortlist(ranked) != [] && Shortlist(ranked)[0] == ranked[0]
  {
    var head := Take(ranked, 6);
    assert Sorted(head, HighestFirst);
    FilterSorted(head, Close(TopScore(ranked)), HighestFirst);
    forall s | s in Shortlist(ranked) ensures s in ranked && s.score <= TopScore(ranked) {
      var i :| 0 <= i < |head| && head[i] == s;
      assert ranked[i] == s;
    }
    if ranked != [] {
      assert head == [head[0]] + head[1..];
      assert Close(TopScore(ranked))(head[0]);
    }
  }

  /** A score within (0, top] has a confidence in (0, 0.99], the top score exactly 0.99. */
  lemma ConfidenceRange(score: int, top: int)
    requires 0 < score <= top
    ensures 0.0 < Confidence(score, top) <= 0.99
    ensures score == top ==> Confidence(score, top) == 0.99
    ensures forall lower :: 0 < lower <= score ==> Confidence(lower, top) <= Confidence(score, top)
  {
    var d := (if top > 1 then top else 1) as real;
    assert d == top as real;
    forall lower | 0 < lower <= score ensures Confidence(lower, top) <= Confidence(score, top) {
      DivideMonotone(lower as real, score as real, d);
    }
  }

  lemma DivideMonotone(a: real, b: real, d: real)
    requires a <= b && d > 0.0
    ensures a / d <= b / d
  {
    assert b / d - a / d == (b - a) / d;
  }

  /**
   * The matches shown for a scored catalog: at most six, each a catalog
   * figure under its own id and name, with confidences in (0, 0.99] that
   * never rise down the list and start at 0.99; and no match at all exactly
   * when no figure scores above zero.
   */
  lemma MatchesShape(catalog: seq<CatalogMinifig>, score: CatalogMinifig -> Scored, reasoning: string)
    requires Tags(score)
    ensures |MatchesOf(catalog, score, reasoning)| <= 6
    ensures forall r: ScanMatch :: r in MatchesOf(catalog, score, reasoning) ==>
      r.minifig in catalog && r.id == r.minifig.id && r.name == r.minifig.name &&
      0.0 < r.confidence <= 0.99 && r.reasoning == reasoning
    ensures MatchesOf(catalog, score, reasoning) != [] ==> MatchesOf(catalog, score, reasoning)[0].confidence == 0.99
    ensures forall i, j :: 0 <= i < j < |MatchesOf(catalog, score, reasoning)| ==>
      MatchesOf(catalog, score, reasoning)[j].confidence <= MatchesOf(catalog, score, reasoning)[i].confidence
    ensures MatchesOf(catalog, score, reasoning) == [] <==> forall m :: m in catalog ==> score(m).score <= 0
  {
    var ranked := RankOf(catalog, score);
    var top := TopScore(ranked);
    var g := ToMatch(top, reasoning);
    var short := Shortlist(ranked);
    var r := MatchesOf(catalog, score, reasoning);
    RankOfShape(catalog, score);
    ShortlistShape(ranked);
    assert r == MapSeq(short, g);
    forall k | 0 <= k < |r|
      ensures r[k] == g(short[k])
      ensures r[k].minifig in catalog && r[k].id == r[k].minifig.id && r[k].name == r[k].minifig.name
      ensures 0.0 < r[k].confidence <= 0.99 && r[k].reasoning == reasoning
    {
      MapSeqAt(short, g, k);
      assert short[k] in short;
      ConfidenceRange(short[k].score, top);
    }
    if r != [] {
      assert short[0] == ranked[0];
      ConfidenceRange(top, top);
    }
    forall i, j | 0 <= i < j < |r| ensures r[j].confidence <= r[i].confidence {
      assert short[i] in short && short[j] in short;
      assert HighestFirst(short[i], short[j]) <= 0;
      ConfidenceRange(short[i].score, top);
    }
    if ranked != [] {
      assert ranked[0] in ranked;
    }
  }

  /**
   * What `identifyMinifig` returns: at most six matches, each a catalog
   * figure under its own id and name, with confidences in (0, 0.99] that
   * never rise down the list and start at 0.99; and no match at all exactly
   * when no figure scores above zero on the search terms and the faction.
   */
  lemma IdentifyResults(catalog: seq<CatalogMinifig>, character: string, variant: string, faction: string)
    ensures |Identify(catalog, character, variant, faction)| <= 6
    ensures forall r: ScanMatch :: r in Identify(catalog, character, variant, faction) ==>
      r.minifig in catalog && r.id == r.minifig.id && r.name == r.minifig.name &&
      0.0 < r.confidence <= 0.99 && r.reasoning == Reasoning(character, variant)
    ensures Identify(catalog, character, variant, faction) != [] ==> Identify(catalog, character, variant, faction)[0].confidence == 0.99
    ensures forall i, j :: 0 <= i < j < |Identify(catalog, character, variant, faction)| ==>
      Identify(catalog, character, variant, faction)[j].confidence <= Identify(catalog, character, variant, faction)[i].confidence
    ensures Identify(catalog, character, variant, faction) == [] <==>
      forall m :: m in catalog ==> Score(SearchTerms(character, variant, faction), m.name) + FactionBonus(faction, m) <= 0
  {
    var score := Scorer(SearchTerms(character, variant, faction), faction);
    assert Tags(score);
    MatchesShape(catalog, score, Reasoning(character, variant));
  }
}
