/**
 * The name arithmetic of the Brickset price import: `normalize`, `baseName`,
 * the word-overlap similarity and the weighted similarity that mixes base
 * names and full names.
 */
module Similarity {
  import opened Strings

  // ---------------------------------------------------------------------
  // Normalization
  // ---------------------------------------------------------------------

  /** The characters a normalized name keeps: `[a-z0-9]`. */
  predicate IsNameChar(c: char) { IsLower(c) || IsDigit(c) }

  /** `.replace(/[^a-z0-9\s]/g, '')`: every character that is neither a name character nor white space is dropped. */
  function KeepNameChars(s: string): (r: string)
    ensures |r| <= |s|
    ensures forall i :: 0 <= i < |r| ==> IsNameChar(r[i]) || IsSpace(r[i])
    ensures forall c :: multiset(r)[c] == if IsNameChar(c) || IsSpace(c) then multiset(s)[c] else 0
  {
    if s == [] then []
    else
      assert s == [s[0]] + s[1..];
      if IsNameChar(s[0]) || IsSpace(s[0]) then [s[0]] + KeepNameChars(s[1..])
      else KeepNameChars(s[1..])
  }

  /** The kept characters stay in their order: filtering a concatenation filters each part. */
  lemma {:induction false} KeepNameCharsAppend(s: string, t: string)
    ensures KeepNameChars(s + t) == KeepNameChars(s) + KeepNameChars(t)
  {
    if s == [] {
      assert s + t == t;
    } else {
      assert (s + t)[0] == s[0] && (s + t)[1..] == s[1..] + t;
      KeepNameCharsAppend(s[1..], t);
    }
  }

  /** The characters of `s` other than white space, in order. */
  function DropSpaces(s: string): (r: string)
    ensures forall i :: 0 <= i < |r| ==> !IsSpace(r[i])
  {
    if s == [] then []
    else if IsSpace(s[0]) then DropSpaces(s[1..])
    else [s[0]] + DropSpaces(s[1..])
  }

  /** Dropping leading white space leaves the other characters alone. */
  lemma {:induction false} DropSpacesTrimStart(s: string)
    ensures DropSpaces(TrimStart(s)) == DropSpaces(s)
  {
    if |s| > 0 && IsSpace(s[0]) {
      DropSpacesTrimStart(s[1..]);
    }
  }

  /** `trimStart` removes a whole run of white space and stops at what follows it. */
  lemma {:induction false} TrimStartRun(sp: string, s: string)
    requires forall i :: 0 <= i < |sp| ==> IsSpace(sp[i])
    requires s == [] || !IsSpace(s[0])
    ensures TrimStart(sp + s) == s
  {
    if sp != [] {
      assert (sp + s)[1..] == sp[1..] + s;
      TrimStartRun(sp[1..], s);
    }
  }

  /** `.replace(/\s+/g, ' ')`: every maximal run of white space becomes one space. */
  function CollapseSpaces(s: string): (r: string)
    ensures r == [] <==> s == []
    ensures r != [] && IsSpace(s[0]) ==> r[0] == ' '
    ensures r != [] && !IsSpace(s[0]) ==> r[0] == s[0]
    ensures forall i, j :: 0 <= i && j == i + 1 < |r| ==> !(IsSpace(r[i]) && IsSpace(r[j]))
    ensures (forall i :: 0 <= i < |s| ==> IsNameChar(s[i]) || IsSpace(s[i])) ==>
            (forall i :: 0 <= i < |r| ==> IsNameChar(r[i]) || r[i] == ' ')
    ensures forall i :: 0 <= i < |r| && IsSpace(r[i]) ==> r[i] == ' '
    ensures DropSpaces(r) == DropSpaces(s)
    decreases |s|
  {
    if s == [] then []
    else if IsSpace(s[0]) then
      var t := TrimStart(s);
      TrimStartSuffix(s);
      DropSpacesTrimStart(s);
      assert |t| < |s|;
      [' '] + CollapseSpaces(t)
    else [s[0]] + CollapseSpaces(s[1..])
  }

  /** A character other than white space is kept. */
  lemma CollapseKeepsChar(c: char, s: string)
    requires !IsSpace(c)
    ensures CollapseSpaces([c] + s) == [c] + CollapseSpaces(s)
  {
    assert ([c] + s)[1..] == s;
  }

  /** A whole run of white space, however long, becomes exactly one space. */
  lemma CollapseRun(sp: string, s: string)
    requires sp != [] && forall i :: 0 <= i < |sp| ==> IsSpace(sp[i])
    requires s == [] || !IsSpace(s[0])
    ensures CollapseSpaces(sp + s) == [' '] + CollapseSpaces(s)
  {
    assert (sp + s)[0] == sp[0];
    TrimStartRun(sp, s);
  }

  /** `normalize`: lower-cased, stripped to letters, digits and single spaces, trimmed. */
  function Normalize(name: string): string
  {
    Trim(CollapseSpaces(KeepNameChars(ToLower(name))))
  }

  /** What `normalize` produces: name characters separated by single spaces, no space at either end. */
  predicate IsNormal(s: string)
  {
    (forall i :: 0 <= i < |s| ==> IsNameChar(s[i]) || s[i] == ' ') &&
    (forall i, j :: 0 <= i && j == i + 1 < |s| ==> !(s[i] == ' ' && s[j] == ' ')) &&
    (s != [] ==> s[0] != ' ' && s[|s| - 1] != ' ')
  }

  /** Trimming a string of name characters and single spaces leaves a normal one. */
  lemma TrimIsNormal(c: string)
    requires forall i :: 0 <= i < |c| ==> IsNameChar(c[i]) || c[i] == ' '
    requires forall i, j :: 0 <= i && j == i + 1 < |c| ==> !(IsSpace(c[i]) && IsSpace(c[j]))
    ensures IsNormal(Trim(c))
  {
    var r := Trim(c);
    var k := |c| - |TrimStart(c)|;
    TrimInfix(c);
    assert r == c[k..k + |r|];
    forall i | 0 <= i < |r| ensures IsNameChar(r[i]) || r[i] == ' ' {
      assert r[i] == c[k + i];
    }
    forall i, j | 0 <= i && j == i + 1 < |r| ensures !(r[i] == ' ' && r[j] == ' ') {
      assert r[i] == c[k + i] && r[j] == c[k + j];
    }
  }

  lemma NormalizeIsNormal(name: string)
    ensures IsNormal(Normalize(name))
  {
    TrimIsNormal(CollapseSpaces(KeepNameChars(ToLower(name))));
  }

  lemma {:induction false} KeepNameCharsFixed(s: string)
    requires forall i :: 0 <= i < |s| ==> IsNameChar(s[i]) || s[i] == ' '
    ensures KeepNameChars(s) == s
  {
    if s != [] {
      KeepNameCharsFixed(s[1..]);
    }
  }

  lemma {:induction false} CollapseSpacesFixed(s: string)
    requires forall i :: 0 <= i < |s| ==> IsNameChar(s[i]) || s[i] == ' '
    requires forall i, j :: 0 <= i && j == i + 1 < |s| ==> !(s[i] == ' ' && s[j] == ' ')
    ensures CollapseSpaces(s) == s
  {
    if s != [] {
      CollapseSpacesFixed(s[1..]);
      if s[0] == ' ' {
        var t := TrimStart(s);
        TrimStartSuffix(s);
        assert t == s[1..];
      }
    }
  }

  /** A normalized name normalizes to itself. */
  lemma NormalizeFixed(s: string)
    requires IsNormal(s)
    ensures Normalize(s) == s
  {
    assert ToLower(s) == s;
    KeepNameCharsFixed(s);
    CollapseSpacesFixed(s);
    TrimNoEdges(s);
  }

  /** `normalize` is idempotent. */
  lemma NormalizeIdempotent(name: string)
    ensures Normalize(Normalize(name)) == Normalize(name)
  {
    NormalizeIsNormal(name);
    NormalizeFixed(Normalize(name));
  }

  // ---------------------------------------------------------------------
  // Base names and word similarity
  // ---------------------------------------------------------------------

  /** `name.split(/[,(]/)[0]`: the text before the first ',' or '('. */
  function BeforeDelimiter(s: string): (r: string)
    ensures |r| <= |s| && r == s[..|r|]
    ensures ',' !in r && '(' !in r
    ensures |r| < |s| ==> s[|r|] == ',' || s[|r|] == '('
  {
    if s == [] || s[0] == ',' || s[0] == '(' then [] else [s[0]] + BeforeDelimiter(s[1..])
  }

  /** `.replace(/\s*-\s*$/, '')`: a final '-' is dropped together with the white space around it. */
  function DropTrailingDash(s: string): (r: string)
    ensures var t := TrimEnd(s);
      if t != [] && t[|t| - 1] == '-' then r == TrimEnd(t[..|t| - 1]) else r == s
  {
    var t := TrimEnd(s);
    if t != [] && t[|t| - 1] == '-' then TrimEnd(t[..|t| - 1]) else s
  }

  /** `baseName`: the character name before any variant details, normalized. */
  function BaseName(name: string): string
  {
    Normalize(DropTrailingDash(Trim(BeforeDelimiter(name))))
  }

  /** A base name is a normalized name. */
  lemma BaseNameIsNormal(name: string)
    ensures IsNormal(BaseName(name))
  {
    NormalizeIsNormal(DropTrailingDash(Trim(BeforeDelimiter(name))));
  }

  /** Taking the base name twice changes nothing. */
  lemma BaseNameIdempotent(name: string)
    ensures BaseName(BaseName(name)) == BaseName(name)
  {
    var b := BaseName(name);
    BaseNameIsNormal(name);
    BaseNameOfNormal(b);
  }

  /** A normalized name is its own base name. */
  lemma BaseNameOfNormal(b: string)
    requires IsNormal(b)
    ensures BaseName(b) == b
  {
    assert ',' !in b && '(' !in b by {
      forall i | 0 <= i < |b| ensures b[i] != ',' && b[i] != '(' {
        assert IsNameChar(b[i]) || b[i] == ' ';
      }
    }
    assert BeforeDelimiter(b) == b;
    TrimNoEdges(b);
    assert DropTrailingDash(b) == b;
    NormalizeFixed(b);
  }

  /** `new Set(s.split(' ').filter(w => w.length > 1))`. */
  function WordSet(s: string): set<string>
  {
    set w | w in Split(s, ' ') && |w| > 1
  }

  function Max(a: nat, b: nat): nat { if a >= b then a else b }

  /** The share of common words, `|A ∩ B| / max(|A|, |B|)`, or 0 when either side has no words. */
  function Overlap(a: set<string>, b: set<string>): (r: real)
    ensures 0.0 <= r <= 1.0
    ensures r == 0.0 <==> a * b == {}
    ensures r == 1.0 <==> a != {} && a == b
  {
    if |a| == 0 || |b| == 0 then 0.0
    else
      IntersectionSize(a, b);
      Ratio(|a * b|, Max(|a|, |b|));
      assert a == b ==> a * b == a;
      assert |a * b| == Max(|a|, |b|) ==> |a * b| == |a| == |b|;
      |a * b| as real / Max(|a|, |b|) as real
  }

  lemma Ratio(x: nat, m: nat)
    requires 0 < m && x <= m
    ensures 0.0 <= x as real / m as real <= 1.0
    ensures x as real / m as real == 0.0 <==> x == 0
    ensures x as real / m as real == 1.0 <==> x == m
  {
    var q := x as real / m as real;
    assert q * m as real == x as real;
  }

  lemma OverlapSymmetric(a: set<string>, b: set<string>)
    ensures Overlap(a, b) == Overlap(b, a)
  {
    assert a * b == b * a;
  }

  lemma IntersectionSize(a: set<string>, b: set<string>)
    ensures |a * b| <= |a| && |a * b| <= |b|
    ensures |a * b| == |a| ==> a <= b
    ensures |a * b| == |a| == |b| ==> a == b
  {
    assert a == (a * b) + (a - b);
    assert b == (a * b) + (b - a);
    if |a * b| == |a| {
      assert |a - b| == 0;
    }
  }

  /** `wordSimilarity`: the word overlap of the two normalized names. */
  function WordSimilarity(a: string, b: string): (r: real)
    ensures 0.0 <= r <= 1.0
  {
    Overlap(WordSet(Normalize(a)), WordSet(Normalize(b)))
  }

  /** The word similarity does not depend on the order of its arguments. */
  lemma WordSimilaritySymmetric(a: string, b: string)
    ensures WordSimilarity(a, b) == WordSimilarity(b, a)
  {
    OverlapSymmetric(WordSet(Normalize(a)), WordSet(Normalize(b)));
  }

  /** A name with at least one word is fully similar to itself. */
  lemma WordSimilaritySelf(a: string)
    requires WordSet(Normalize(a)) != {}
    ensures WordSimilarity(a, a) == 1.0
  {
  }

  /**
   * `weightedSimilarity`: 0 when the catalog base name has words and shares
   * none with the Brickset base name; otherwise 0.7 of the base-name overlap
   * plus 0.3 of the full-name similarity.
   */
  function WeightedSimilarity(catalogName: string, bricksetName: string): (r: real)
    ensures 0.0 <= r <= 1.0
    ensures WordSet(BaseName(catalogName)) != {} && WordSet(BaseName(catalogName)) * WordSet(BaseName(bricksetName)) == {} ==> r == 0.0
    ensures WordSet(BaseName(catalogName)) != {} && r > 0.0 ==> WordSet(BaseName(catalogName)) * WordSet(BaseName(bricksetName)) != {}
  {
    var catWords := WordSet(BaseName(catalogName));
    var bsWords := WordSet(BaseName(bricksetName));
    if |catWords| > 0 && |catWords * bsWords| == 0 then 0.0
    else
      var baseSim := if |catWords| > 0 && |bsWords| > 0 then Overlap(catWords, bsWords) else 0.0;
      baseSim * 0.7 + WordSimilarity(catalogName, bricksetName) * 0.3
  }

  /** A name whose base name and full name both have words scores 1 against itself. */
  lemma WeightedSimilaritySelf(name: string)
    requires WordSet(BaseName(name)) != {} && WordSet(Normalize(name)) != {}
    ensures WeightedSimilarity(name, name) == 1.0
  {
    WordSimilaritySelf(name);
  }
}
