/**
 * The catalog builder: from the Rebrickable tables (themes, minifigures,
 * sets, inventories, inventory minifigures) to the sorted list of Star Wars
 * minifigures, each with its sets, earliest year and guessed faction.
 */
module CatalogBuild {
  import opened Wrappers
  import opened Types
  import opened Strings
  import opened Seqs
  import opened OrderedMap
  import opened Sorting
  import opened KeyIndex

  // Rows of the Rebrickable tables, with only the columns the builder reads.
  // A set's year and an inventory's version are the columns as `parseInt`
  // reads them (`None` for NaN).
  datatype ThemeRow = ThemeRow(id: string, parentId: string)
  datatype MinifigRow = MinifigRow(figNum: string, name: string, imgUrl: string)
  datatype SetRow = SetRow(setNum: string, name: string, year: int, themeId: string)
  datatype InventoryRow = InventoryRow(id: string, version: Option<int>, setNum: string)
  datatype InventoryMinifigRow = InventoryMinifigRow(inventoryId: string, figNum: string)

  // ---------------------------------------------------------------------
  // The Star Wars themes: a closure over parent links
  // ---------------------------------------------------------------------

  const StarWarsRoot: string := "158"
  const StarWarsLegacy: string := "18"

  /** Every theme whose parent is in `ids` is in `ids`. */
  ghost predicate ClosedUnder(themes: seq<ThemeRow>, ids: set<string>)
  {
    forall i :: 0 <= i < |themes| && themes[i].parentId in ids ==> themes[i].id in ids
  }

  /** `ids` lies inside every closed set holding both roots: it holds nothing but the roots and their descendants. */
  ghost predicate InEveryClosure(themes: seq<ThemeRow>, ids: set<string>)
  {
    forall s :: StarWarsRoot in s && StarWarsLegacy in s && ClosedUnder(themes, s) ==> ids <= s
  }

  /** The theme ids listed in the table. */
  function ThemeIdSet(themes: seq<ThemeRow>): set<string>
  {
    set i | 0 <= i < |themes| :: themes[i].id
  }

  lemma CardShrinks(all: set<string>, a: set<string>, b: set<string>)
    requires a <= b <= all && a != b
    ensures |all - b| < |all - a|
  {
    var x :| x in b && x !in a;
    var d := (all - a) - (all - b);
    assert x in d;
    assert all - a == (all - b) + d;
    assert (all - b) * d == {};
  }

  /** One pass of the `for` loop: it only adds themes whose parent is already in, and adds none exactly when `ids` is closed. */
  method ThemePass(themes: seq<ThemeRow>, ids0: set<string>) returns (ids: set<string>, changed: bool)
    requires InEveryClosure(themes, ids0)
    ensures ids0 <= ids <= ids0 + ThemeIdSet(themes)
    ensures InEveryClosure(themes, ids)
    ensures changed <==> ids != ids0
    ensures !changed ==> ClosedUnder(themes, ids)
  {
    ids, changed := ids0, false;
    for i := 0 to |themes|
      invariant ids0 <= ids <= ids0 + ThemeIdSet(themes)
      invariant InEveryClosure(themes, ids)
      invariant changed <==> ids != ids0
      invariant !changed ==> forall j :: 0 <= j < i && themes[j].parentId in ids ==> themes[j].id in ids
    {
      var t := themes[i];
      if t.id !in ids && t.parentId in ids {
        forall s | StarWarsRoot in s && StarWarsLegacy in s && ClosedUnder(themes, s)
          ensures ids + {t.id} <= s
        {
          assert themes[i].parentId in s;
        }
        ids := ids + {t.id};
        changed := true;
      }
    }
  }

  /**
   * `getStarWarsThemeIds`: passes over the themes until one adds nothing.
   * The result is the least set holding both roots that is closed under
   * the parent links.
   */
  method StarWarsThemeIds(themes: seq<ThemeRow>) returns (ids: set<string>)
    ensures StarWarsRoot in ids && StarWarsLegacy in ids
    ensures ClosedUnder(themes, ids)
    ensures InEveryClosure(themes, ids)
  {
    ids := {StarWarsRoot, StarWarsLegacy};
    ghost var all := ids + ThemeIdSet(themes);
    var changed := true;
    while changed
      invariant StarWarsRoot in ids && StarWarsLegacy in ids && ids <= all
      invariant InEveryClosure(themes, ids)
      invariant !changed ==> ClosedUnder(themes, ids)
      decreases |all - ids| + (if changed then 1 else 0)
    {
      ghost var before := ids;
      ids, changed := ThemePass(themes, ids);
      if changed {
        CardShrinks(all, before, ids);
      }
    }
  }

  /** There is one such least closed set: two results of the closure are equal. */
  lemma ClosureUnique(themes: seq<ThemeRow>, a: set<string>, b: set<string>)
    requires StarWarsRoot in a && StarWarsLegacy in a && ClosedUnder(themes, a) && InEveryClosure(themes, a)
    requires StarWarsRoot in b && StarWarsLegacy in b && ClosedUnder(themes, b) && InEveryClosure(themes, b)
    ensures a == b
  {
  }

  // ---------------------------------------------------------------------
  // The faction guess: ordered keyword rules, the first match wins
  // ---------------------------------------------------------------------

  /** One alternative of a keyword pattern `\b(…|…)\b`. */
  datatype Keyword =
    | Word(w: string)                   // the literal text
    | Span(first: string, last: string) // `first.*last`
    | DigitAfter(prefix: string)        // `prefix\d`

  datatype Rule = Rule(keywords: seq<Keyword>, faction: string)

  predicate WordCharAt(s: string, i: int) { 0 <= i < |s| && IsWordChar(s[i]) }

  /** `\b`: a word character on exactly one side of position `i`. */
  predicate Boundary(s: string, i: int) { WordCharAt(s, i - 1) != WordCharAt(s, i) }

  /** The characters `.` does not match. */
  predicate IsLineTerminator(c: char)
  {
    c == '\n' || c == '\r' || c as int == 0x2028 || c as int == 0x2029
  }

  /** The keyword matches exactly `s[i..j]`. */
  predicate KeywordSpan(s: string, k: Keyword, i: nat, j: nat)
    requires i <= j <= |s|
  {
    match k
    case Word(w) => s[i..j] == w
    case Span(a, b) =>
      |a| + |b| <= j - i && s[i..i + |a|] == a && s[j - |b|..j] == b &&
      forall m | i + |a| <= m < j - |b| :: !IsLineTerminator(s[m])
    case DigitAfter(p) => j - i == |p| + 1 && s[i..j - 1] == p && IsDigit(s[j - 1])
  }

  /** `/\b(k1|k2|…)\b/.test(s)`: some keyword matches between two word boundaries. */
  predicate RuleMatches(s: string, keywords: seq<Keyword>)
  {
    exists i, j, k | 0 <= i <= |s| && i <= j <= |s| && 0 <= k < |keywords| ::
      Boundary(s, i) && Boundary(s, j) && KeywordSpan(s, keywords[k], i, j)
  }

  function Words(ws: seq<string>): (r: seq<Keyword>)
    ensures |r| == |ws| && forall i :: 0 <= i < |ws| ==> r[i] == Word(ws[i])
  {
    seq(|ws|, i requires 0 <= i < |ws| => Word(ws[i]))
  }

  /** The rules of `guessFaction`, in source order. */
  const FactionRules: seq<Rule> := [
    Rule(Words(["clone", "captain rex", "commander cody", "commander wolffe", "commander bly", "commander gree",
                "commander fox", "arc trooper", "phase"]), "Clone"),
    Rule(Words(["stormtrooper", "death trooper", "scout trooper", "snowtrooper", "sandtrooper", "imperial", "tarkin",
                "moff", "at-at driver", "tie pilot", "officer"]), "Empire"),
    Rule(Words(["first order", "captain phasma", "kylo", "hux", "praetorian"]), "First Order"),
    Rule(Words(["rebel", "mon mothma", "admiral ackbar"]) + [Span("leia", "hoth")] +
         Words(["rebel pilot", "a-wing", "x-wing pilot", "y-wing pilot", "b-wing pilot"]), "Rebel Alliance"),
    Rule(Words(["resistance", "finn", "poe", "rose tico"]), "Resistance"),
    Rule(Words(["jedi", "luke", "obi-wan", "anakin", "yoda", "mace windu", "ahsoka", "qui-gon", "kit fisto", "plo koon",
                "aayla", "luminara", "youngling"]), "Jedi"),
    Rule(Words(["sith", "darth", "palpatine", "emperor", "dooku", "maul", "ventress", "inquisitor", "savage"]), "Sith"),
    Rule(Words(["mandalorian", "boba fett", "jango", "bo-katan", "din djarin", "mando", "sabine", "pre vizsla"]), "Mandalorian"),
    Rule(Words(["bounty", "greedo", "bossk", "dengar", "ig-88", "4-lom", "zuckuss", "embo", "cad bane", "aurra"]), "Bounty Hunter"),
    Rule(Words(["droid", "r2", "c-3po", "bb-8", "gonk", "battle droid", "super battle", "commando droid"]) +
         [DigitAfter("ig-")] + Words(["chopper", "k-2so"]), "Droid"),
    Rule(Words(["wookiee", "chewbacca", "tarfful"]), "Wookiee"),
    Rule(Words(["ewok", "wicket"]), "Ewok"),
    Rule(Words(["tusken", "jawa", "hutt", "jabba", "gamorrean", "twilek", "rodian", "gungan", "jar jar"]), "Civilian"),
    Rule(Words(["han solo", "lando", "padm", "bail"]), "Rebel Alliance")
  ]

  /** The labels `guessFaction` can return. */
  const FactionLabels: set<string> := {
    "Clone", "Empire", "First Order", "Rebel Alliance", "Resistance", "Jedi", "Sith", "Mandalorian",
    "Bounty Hunter", "Droid", "Wookiee", "Ewok", "Civilian", "Other"
  }

  /** The label of the first rule that matches, or "Other". */
  function FirstLabel(rules: seq<Rule>, n: string): string
  {
    if rules == [] then "Other"
    else if RuleMatches(n, rules[0].keywords) then rules[0].faction
    else FirstLabel(rules[1..], n)
  }

  /** `guessFaction`: the rules run on the lower-cased name. */
  function GuessFaction(name: string): string
  {
    FirstLabel(FactionRules, ToLower(name))
  }

  /** The first matching rule decides the label. */
  lemma {:induction false} FirstLabelFirstMatch(rules: seq<Rule>, n: string, k: nat)
    requires k < |rules| && RuleMatches(n, rules[k].keywords)
    requires forall j :: 0 <= j < k ==> !RuleMatches(n, rules[j].keywords)
    ensures FirstLabel(rules, n) == rules[k].faction
  {
    if k > 0 {
      assert !RuleMatches(n, rules[0].keywords);
      FirstLabelFirstMatch(rules[1..], n, k - 1);
    }
  }

  /** With no matching rule the label is "Other". */
  lemma {:induction false} FirstLabelNoMatch(rules: seq<Rule>, n: string)
    requires forall j :: 0 <= j < |rules| ==> !RuleMatches(n, rules[j].keywords)
    ensures FirstLabel(rules, n) == "Other"
  {
    if rules != [] {
      FirstLabelNoMatch(rules[1..], n);
    }
  }

  lemma {:induction false} FirstLabelAmong(rules: seq<Rule>, n: string)
    ensures FirstLabel(rules, n) == "Other" || exists j :: 0 <= j < |rules| && FirstLabel(rules, n) == rules[j].faction
  {
    if rules != [] && !RuleMatches(n, rules[0].keywords) {
      FirstLabelAmong(rules[1..], n);
      if FirstLabel(rules, n) != "Other" {
        var j :| 0 <= j < |rules[1..]| && FirstLabel(rules[1..], n) == rules[1..][j].faction;
        assert rules[j + 1] == rules[1..][j];
      }
    }
  }

  /** `guessFaction` always returns one of the fourteen fixed labels. */
  lemma GuessFactionLabel(name: string)
    ensures GuessFaction(name) in FactionLabels
  {
    FirstLabelAmong(FactionRules, ToLower(name));
    assert forall j :: 0 <= j < |FactionRules| ==> FactionRules[j].faction in FactionLabels;
  }

  // ---------------------------------------------------------------------
  // The Star Wars sets
  // ---------------------------------------------------------------------

  /** `swSets` after the rows of `sets`: each Star Wars set by number, a later row replacing an earlier one in place. */
  function SwSets(sets: seq<SetRow>, sw: set<string>): (r: OMap<string, SetRow>)
    ensures r.Valid()
  {
    if sets == [] then Empty()
    else
      var n := |sets| - 1;
      var m := SwSets(sets[..n], sw);
      if sets[n].themeId in sw then m.Put(sets[n].setNum, sets[n]) else m
  }

  /** A set row of a Star Wars theme is kept under its number. */
  lemma {:induction false} SwSetsHas(sets: seq<SetRow>, sw: set<string>, i: nat)
    requires i < |sets| && sets[i].themeId in sw
    ensures sets[i].setNum in SwSets(sets, sw).values
  {
    var n := |sets| - 1;
    if i < n {
      SwSetsHas(sets[..n], sw, i);
    }
  }

  /** Every kept set is a row of `sets`, under its own number, of a Star Wars theme. */
  lemma {:induction false} SwSetsFrom(sets: seq<SetRow>, sw: set<string>, k: string) returns (i: nat)
    requires k in SwSets(sets, sw).values
    ensures i < |sets| && SwSets(sets, sw).values[k] == sets[i]
    ensures sets[i].setNum == k && sets[i].themeId in sw
  {
    var n := |sets| - 1;
    if sets[n].themeId in sw && sets[n].setNum == k {
      i := n;
    } else {
      i := SwSetsFrom(sets[..n], sw, k);
    }
  }

  method SelectStarWarsSets(sets: seq<SetRow>, sw: set<string>) returns (swSets: OMap<string, SetRow>)
    ensures swSets == SwSets(sets, sw)
  {
    swSets := Empty();
    for i := 0 to |sets|
      invariant swSets == SwSets(sets[..i], sw)
    {
      assert sets[..i + 1][..i] == sets[..i];
      var s := sets[i];
      if s.themeId in sw {
        swSets := swSets.Put(s.setNum, s);
      }
    }
    PrefixAll(sets);
  }

  // ---------------------------------------------------------------------
  // The inventory of each set
  // ---------------------------------------------------------------------

  /** `parseInt(inv.version) === 1`. */
  predicate IsVersionOne(inv: InventoryRow)
  {
    inv.version == Some(1)
  }

  /** `setToInventory` after the rows of `invs`: a row replaces the choice when there is none yet (or an empty one) or it is version 1. */
  function SetToInventory(invs: seq<InventoryRow>): map<string, string>
  {
    if invs == [] then map[]
    else
      var n := |invs| - 1;
      var m := SetToInventory(invs[..n]);
      var inv := invs[n];
      if inv.setNum !in m || m[inv.setNum] == "" || IsVersionOne(inv) then m[inv.setNum := inv.id] else m
  }

  /** Exactly the sets with an inventory row have a chosen inventory. */
  lemma {:induction false} SetToInventoryKeys(invs: seq<InventoryRow>, k: string)
    ensures k in SetToInventory(invs) <==> exists i :: 0 <= i < |invs| && invs[i].setNum == k
  {
    if invs != [] {
      var n := |invs| - 1;
      SetToInventoryKeys(invs[..n], k);
      assert forall i :: 0 <= i < n ==> invs[..n][i] == invs[i];
    }
  }

  /** The last version-1 row of a set is its chosen inventory. */
  lemma {:induction false} LastVersionOneChosen(invs: seq<InventoryRow>, k: string, i: nat)
    requires i < |invs| && invs[i].setNum == k && IsVersionOne(invs[i]) && invs[i].id != ""
    requires forall j :: i < j < |invs| && invs[j].setNum == k ==> !IsVersionOne(invs[j])
    ensures k in SetToInventory(invs) && SetToInventory(invs)[k] == invs[i].id
  {
    var n := |invs| - 1;
    if i < n {
      LastVersionOneChosen(invs[..n], k, i);
      var m := SetToInventory(invs[..n]);
      if invs[n].setNum == k {
        assert !IsVersionOne(invs[n]) && m[k] != "";
      }
    }
  }

  /** A set with no version-1 row keeps the inventory of its first row. */
  lemma {:induction false} FirstRowChosen(invs: seq<InventoryRow>, k: string, i: nat)
    requires i < |invs| && invs[i].setNum == k && invs[i].id != ""
    requires forall j :: 0 <= j < i ==> invs[j].setNum != k
    requires forall j :: i < j < |invs| && invs[j].setNum == k ==> !IsVersionOne(invs[j])
    ensures k in SetToInventory(invs) && SetToInventory(invs)[k] == invs[i].id
  {
    var n := |invs| - 1;
    if i < n {
      FirstRowChosen(invs[..n], k, i);
    } else {
      SetToInventoryKeys(invs[..n], k);
    }
  }

  method ChooseInventories(invs: seq<InventoryRow>) returns (setToInventory: map<string, string>)
    ensures setToInventory == SetToInventory(invs)
  {
    setToInventory := map[];
    for i := 0 to |invs|
      invariant setToInventory == SetToInventory(invs[..i])
    {
      assert invs[..i + 1][..i] == invs[..i];
      var inv := invs[i];
      var existing := if inv.setNum in setToInventory then setToInventory[inv.setNum] else "";
      if existing == "" || inv.version == Some(1) {
        setToInventory := setToInventory[inv.setNum := inv.id];
      }
    }
    PrefixAll(invs);
  }

  /** `inventoryToSet` after the Star Wars set numbers `setNums`: each chosen inventory back to its set. */
  function InventoryToSet(setNums: seq<string>, setToInventory: map<string, string>): map<string, string>
  {
    if setNums == [] then map[]
    else
      var n := |setNums| - 1;
      var m := InventoryToSet(setNums[..n], setToInventory);
      var setNum := setNums[n];
      if setNum in setToInventory && setToInventory[setNum] != "" then m[setToInventory[setNum] := setNum] else m
  }

  /** The reverse map agrees with the forward one: an inventory maps back to a Star Wars set that chose it. */
  lemma {:induction false} InventoryToSetBack(setNums: seq<string>, setToInventory: map<string, string>, inv: string)
    requires inv in InventoryToSet(setNums, setToInventory)
    ensures var s := InventoryToSet(setNums, setToInventory)[inv];
      s in setNums && s in setToInventory && setToInventory[s] == inv
  {
    var n := |setNums| - 1;
    var setNum := setNums[n];
    if !(setNum in setToInventory && setToInventory[setNum] != "" && setToInventory[setNum] == inv) {
      InventoryToSetBack(setNums[..n], setToInventory, inv);
      assert setNums == setNums[..n] + [setNum];
    }
  }

  /** Every Star Wars set's chosen inventory is mapped back. */
  lemma {:induction false} InventoryToSetHas(setNums: seq<string>, setToInventory: map<string, string>, i: nat)
    requires i < |setNums| && setNums[i] in setToInventory && setToInventory[setNums[i]] != ""
    ensures setToInventory[setNums[i]] in InventoryToSet(setNums, setToInventory)
  {
    var n := |setNums| - 1;
    if i < n {
      InventoryToSetHas(setNums[..n], setToInventory, i);
    }
  }

  method ReverseInventories(setNums: seq<string>, setToInventory: map<string, string>) returns (inventoryToSet: map<string, string>)
    ensures inventoryToSet == InventoryToSet(setNums, setToInventory)
  {
    inventoryToSet := map[];
    for i := 0 to |setNums|
      invariant inventoryToSet == InventoryToSet(setNums[..i], setToInventory)
    {
      assert setNums[..i + 1][..i] == setNums[..i];
      var setNum := setNums[i];
      var invId := if setNum in setToInventory then setToInventory[setNum] else "";
      if invId != "" {
        inventoryToSet := inventoryToSet[invId := setNum];
      }
    }
    PrefixAll(setNums);
  }

  // ---------------------------------------------------------------------
  // The figures of the Star Wars sets
  // ---------------------------------------------------------------------

  /** The Star Wars set an inventory-minifigure row links its figure to, if any. */
  function LinkOf(im: InventoryMinifigRow, inventoryToSet: map<string, string>): Option<string>
  {
    if im.inventoryId in inventoryToSet && inventoryToSet[im.inventoryId] != "" then Some(inventoryToSet[im.inventoryId]) else None
  }

  /** `figToSets.get(fig).add(setNum)`, creating the empty set first; a set keeps insertion order and no repeats. */
  function AddLink(m: OMap<string, seq<string>>, fig: string, setNum: string): (r: OMap<string, seq<string>>)
    requires m.Valid()
    ensures r.Valid()
  {
    var cur := if fig in m.values then m.values[fig] else [];
    m.Put(fig, if setNum in cur then cur else cur + [setNum])
  }

  /** `figToSets` after the rows of `ims`. */
  function FigToSets(ims: seq<InventoryMinifigRow>, inventoryToSet: map<string, string>): (r: OMap<string, seq<string>>)
    ensures r.Valid()
  {
    if ims == [] then Empty()
    else
      var n := |ims| - 1;
      var m := FigToSets(ims[..n], inventoryToSet);
      match LinkOf(ims[n], inventoryToSet)
      case Some(s) => AddLink(m, ims[n].figNum, s)
      case None => m
  }

  /** A linked row puts its set in its figure's sets. */
  lemma {:induction false} FigToSetsHas(ims: seq<InventoryMinifigRow>, inventoryToSet: map<string, string>, i: nat)
    requires i < |ims| && LinkOf(ims[i], inventoryToSet).Some?
    ensures var r := FigToSets(ims, inventoryToSet).values;
      ims[i].figNum in r && LinkOf(ims[i], inventoryToSet).value in r[ims[i].figNum]
  {
    var n := |ims| - 1;
    if i < n {
      FigToSetsHas(ims[..n], inventoryToSet, i);
    }
  }

  /** Every set listed for a figure comes from a row linking that figure to that set. */
  lemma {:induction false} FigToSetsFrom(ims: seq<InventoryMinifigRow>, inventoryToSet: map<string, string>, fig: string, s: string)
    returns (i: nat)
    requires fig in FigToSets(ims, inventoryToSet).values && s in FigToSets(ims, inventoryToSet).values[fig]
    ensures i < |ims| && ims[i].figNum == fig && LinkOf(ims[i], inventoryToSet) == Some(s)
  {
    var n := |ims| - 1;
    var m := FigToSets(ims[..n], inventoryToSet);
    if LinkOf(ims[n], inventoryToSet) == Some(s) && ims[n].figNum == fig {
      i := n;
    } else {
      i := FigToSetsFrom(ims[..n], inventoryToSet, fig, s);
    }
  }

  /** Each figure's set list is non-empty and free of repeats. */
  lemma {:induction false} FigToSetsLists(ims: seq<InventoryMinifigRow>, inventoryToSet: map<string, string>, fig: string)
    requires fig in FigToSets(ims, inventoryToSet).values
    ensures var l := FigToSets(ims, inventoryToSet).values[fig];
      l != [] && forall p, q :: 0 <= p < q < |l| ==> l[p] != l[q]
  {
    var n := |ims| - 1;
    var m := FigToSets(ims[..n], inventoryToSet);
    if fig in m.values {
      FigToSetsLists(ims[..n], inventoryToSet, fig);
    }
  }

  method LinkFigures(ims: seq<InventoryMinifigRow>, inventoryToSet: map<string, string>) returns (figToSets: OMap<string, seq<string>>)
    ensures figToSets == FigToSets(ims, inventoryToSet)
  {
    figToSets := Empty();
    for i := 0 to |ims|
      invariant figToSets == FigToSets(ims[..i], inventoryToSet)
    {
      assert ims[..i + 1][..i] == ims[..i];
      var im := ims[i];
      var setNum := if im.inventoryId in inventoryToSet then inventoryToSet[im.inventoryId] else "";
      if setNum != "" {
        assert LinkOf(im, inventoryToSet) == Some(setNum);
        figToSets := AddLink(figToSets, im.figNum, setNum);
      }
    }
    PrefixAll(ims);
  }

  // ---------------------------------------------------------------------
  // The figure numbers to emit
  // ---------------------------------------------------------------------

  /** `swFigNums.add(f)` on an insertion-ordered set. */
  function AddFig(acc: seq<string>, f: string): seq<string>
  {
    if f in acc then acc else acc + [f]
  }

  /** `acc` after adding each of `fs` in turn. */
  function AddFigs(acc: seq<string>, fs: seq<string>): seq<string>
    decreases |fs|
  {
    if fs == [] then acc else AddFigs(AddFig(acc, fs[0]), fs[1..])
  }

  /** Adding keeps an ordered set free of repeats and holds exactly what was there and what was added. */
  lemma {:induction false} AddFigsMembers(acc: seq<string>, fs: seq<string>)
    requires forall p, q :: 0 <= p < q < |acc| ==> acc[p] != acc[q]
    decreases |fs|
    ensures var r := AddFigs(acc, fs);
      (forall p, q :: 0 <= p < q < |r| ==> r[p] != r[q]) && forall x :: x in r <==> x in acc || x in fs
  {
    if fs != [] {
      AddFigsMembers(AddFig(acc, fs[0]), fs[1..]);
      assert fs == [fs[0]] + fs[1..];
    }
  }

  /** The `fig-` minifigure numbers that have Star Wars sets, in minifigure order. */
  function Seeds(minifigs: seq<MinifigRow>, figToSets: OMap<string, seq<string>>): (r: seq<string>)
    ensures forall x :: x in r ==> x in figToSets.values
  {
    if minifigs == [] then []
    else
      var m := minifigs[0];
      (if StartsWith(m.figNum, "fig-") && m.figNum in figToSets.values then [m.figNum] else []) + Seeds(minifigs[1..], figToSets)
  }

  /** `swFigNums`: the seeds, then every figure of `figToSets`. */
  function FigNums(minifigs: seq<MinifigRow>, figToSets: OMap<string, seq<string>>): seq<string>
    requires figToSets.Valid()
  {
    AddFigs(AddFigs([], Seeds(minifigs, figToSets)), figToSets.keys)
  }

  /** The figure numbers are exactly the figures with Star Wars sets, each once. */
  lemma FigNumsAreLinked(minifigs: seq<MinifigRow>, figToSets: OMap<string, seq<string>>)
    requires figToSets.Valid()
    ensures var r := FigNums(minifigs, figToSets);
      (forall p, q :: 0 <= p < q < |r| ==> r[p] != r[q]) && forall x :: x in r <==> x in figToSets.values
  {
    AddFigsMembers([], Seeds(minifigs, figToSets));
    AddFigsMembers(AddFigs([], Seeds(minifigs, figToSets)), figToSets.keys);
  }

  method CollectFigNums(minifigs: seq<MinifigRow>, figToSets: OMap<string, seq<string>>) returns (swFigNums: seq<string>)
    requires figToSets.Valid()
    ensures swFigNums == FigNums(minifigs, figToSets)
  {
    swFigNums := [];
    ghost var seeded := AddFigs([], Seeds(minifigs, figToSets));
    for i := 0 to |minifigs|
      invariant AddFigs(swFigNums, Seeds(minifigs[i..], figToSets)) == seeded
    {
      var m := minifigs[i];
      assert minifigs[i..] == [m] + minifigs[i + 1..];
      var rest := Seeds(minifigs[i + 1..], figToSets);
      if StartsWith(m.figNum, "fig-") && m.figNum in figToSets.values {
        assert Seeds(minifigs[i..], figToSets) == [m.figNum] + rest;
        assert ([m.figNum] + rest)[1..] == rest;
        swFigNums := AddFig(swFigNums, m.figNum);
      } else {
        assert Seeds(minifigs[i..], figToSets) == rest;
      }
    }
    assert minifigs[|minifigs|..] == [];
    var keys := figToSets.keys;
    assert keys[0..] == keys;
    for j := 0 to |keys|
      invariant AddFigs(swFigNums, keys[j..]) == FigNums(minifigs, figToSets)
    {
      assert keys[j..][1..] == keys[j + 1..];
      swFigNums := AddFig(swFigNums, keys[j]);
    }
    assert keys[|keys|..] == [];
  }

  // ---------------------------------------------------------------------
  // One catalog entry
  // ---------------------------------------------------------------------

  function SetRefOf(s: SetRow): SetRef { SetRef(s.setNum, s.name, s.year) }

  /** The figure's sets that are Star Wars sets, as set references, in the order of `setIds`. */
  function Resolve(setIds: seq<string>, swSets: map<string, SetRow>): (r: seq<SetRef>)
    ensures |r| <= |setIds|
  {
    if setIds == [] then []
    else
      var n := |setIds| - 1;
      Resolve(setIds[..n], swSets) + (if setIds[n] in swSets then [SetRefOf(swSets[setIds[n]])] else [])
  }

  /** Every resolved reference is a Star Wars set listed for the figure. */
  lemma {:induction false} ResolveFrom(setIds: seq<string>, swSets: map<string, SetRow>, k: nat) returns (i: nat)
    requires k < |Resolve(setIds, swSets)|
    ensures i < |setIds| && setIds[i] in swSets && Resolve(setIds, swSets)[k] == SetRefOf(swSets[setIds[i]])
  {
    var n := |setIds| - 1;
    var before := Resolve(setIds[..n], swSets);
    if k < |before| {
      i := ResolveFrom(setIds[..n], swSets, k);
    } else {
      i := n;
    }
  }

  /** The running minimum from 9999: the least year below 9999, or 9999 when there is none. */
  function MinYear(refs: seq<SetRef>): (y: int)
    ensures y <= 9999
    ensures forall k :: 0 <= k < |refs| ==> y <= refs[k].year || refs[k].year >= 9999
    ensures y < 9999 ==> exists k :: 0 <= k < |refs| && refs[k].year == y
  {
    if refs == [] then 9999
    else
      var n := |refs| - 1;
      var m := MinYear(refs[..n]);
      assert forall k :: 0 <= k < n ==> refs[..n][k] == refs[k];
      if refs[n].year < m then refs[n].year else m
  }

  /** The set order: by year. */
  function YearOrder(a: SetRef, b: SetRef): int { a.year - b.year }

  /** The figure's entry: its Star Wars sets sorted by year, its earliest year (2000 when unknown), its faction. */
  function EntryFor(fig: string, info: MinifigRow, setIds: seq<string>, swSets: map<string, SetRow>): CatalogMinifig
  {
    var figSets := Resolve(setIds, swSets);
    var minYear := MinYear(figSets);
    CatalogMinifig(fig, info.name, info.imgUrl, if minYear == 9999 then 2000 else minYear,
                   Sort(figSets, YearOrder), GuessFaction(info.name), |figSets|)
  }

  lemma YearOrderConsistent()
    ensures Consistent(YearOrder)
  {
  }

  /**
   * An entry lists its Star Wars sets sorted by year, counts them, and takes
   * the earliest year below 9999, or 2000 when no set has one.
   */
  lemma EntryShape(fig: string, info: MinifigRow, setIds: seq<string>, swSets: map<string, SetRow>)
    ensures var e := EntryFor(fig, info, setIds, swSets);
      var figSets := Resolve(setIds, swSets);
      e.id == fig && e.numSets == |e.sets| && multiset(e.sets) == multiset(figSets) && Sorted(e.sets, YearOrder) &&
      e.faction in FactionLabels &&
      ((forall k :: 0 <= k < |figSets| ==> figSets[k].year >= 9999) ==> e.year == 2000) &&
      ((exists k :: 0 <= k < |figSets| && figSets[k].year < 9999) ==>
         (exists k :: 0 <= k < |figSets| && figSets[k].year == e.year) &&
         forall k :: 0 <= k < |figSets| ==> e.year <= figSets[k].year)
  {
    YearOrderConsistent();
    SortSorted(Resolve(setIds, swSets), YearOrder);
    GuessFactionLabel(info.name);
  }

  method ResolveSets(setIds: seq<string>, swSets: map<string, SetRow>) returns (figSets: seq<SetRef>, minYear: int)
    ensures figSets == Resolve(setIds, swSets) && minYear == MinYear(figSets)
  {
    figSets, minYear := [], 9999;
    for i := 0 to |setIds|
      invariant figSets == Resolve(setIds[..i], swSets) && minYear == MinYear(figSets)
    {
      assert setIds[..i + 1][..i] == setIds[..i];
      var setId := setIds[i];
      if setId in swSets {
        var s := swSets[setId];
        assert (figSets + [SetRefOf(s)])[..|figSets|] == figSets;
        figSets := figSets + [SetRefOf(s)];
        if s.year < minYear {
          minYear := s.year;
        }
      }
    }
    PrefixAll(setIds);
  }

  // ---------------------------------------------------------------------
  // The catalog
  // ---------------------------------------------------------------------

  function FigKeys(minifigs: seq<MinifigRow>): (r: seq<string>)
    ensures |r| == |minifigs|
  {
    seq(|minifigs|, i requires 0 <= i < |minifigs| => minifigs[i].figNum)
  }

  /** `minifigMap`: each figure number to its last minifigure row. */
  function MinifigMap(minifigs: seq<MinifigRow>): map<string, MinifigRow>
  {
    LastByKey(FigKeys(minifigs), minifigs)
  }

  /** The entries for the figures of `figs` that have a minifigure row, in the order of `figs`. */
  function Emit(figs: seq<string>, info: map<string, MinifigRow>, figToSets: map<string, seq<string>>,
                swSets: map<string, SetRow>): (r: seq<CatalogMinifig>)
    ensures |r| <= |figs|
  {
    if figs == [] then []
    else
      var n := |figs| - 1;
      var f := figs[n];
      Emit(figs[..n], info, figToSets, swSets) +
        (if f in info then [EntryFor(f, info[f], if f in figToSets then figToSets[f] else [], swSets)] else [])
  }

  /** Each entry is the entry of a listed figure that has a minifigure row. */
  lemma {:induction false} EmitFrom(figs: seq<string>, info: map<string, MinifigRow>, figToSets: map<string, seq<string>>,
                                    swSets: map<string, SetRow>, k: nat) returns (i: nat)
    requires k < |Emit(figs, info, figToSets, swSets)|
    ensures var e := Emit(figs, info, figToSets, swSets)[k];
      i < |figs| && figs[i] == e.id && e.id in info &&
      e == EntryFor(e.id, info[e.id], if e.id in figToSets then figToSets[e.id] else [], swSets)
  {
    var n := |figs| - 1;
    var before := Emit(figs[..n], info, figToSets, swSets);
    if k < |before| {
      i := EmitFrom(figs[..n], info, figToSets, swSets, k);
    } else {
      i := n;
    }
  }

  /** Every listed figure with a minifigure row gets an entry. */
  lemma {:induction false} EmitHas(figs: seq<string>, info: map<string, MinifigRow>, figToSets: map<string, seq<string>>,
                                   swSets: map<string, SetRow>, i: nat) returns (k: nat)
    requires i < |figs| && figs[i] in info
    ensures k < |Emit(figs, info, figToSets, swSets)| && Emit(figs, info, figToSets, swSets)[k].id == figs[i]
  {
    var n := |figs| - 1;
    if i < n {
      k := EmitHas(figs[..n], info, figToSets, swSets, i);
    } else {
      k := |Emit(figs[..n], info, figToSets, swSets)|;
    }
  }

  function IdOf(m: CatalogMinifig): string { m.id }

  /** Figures listed once each give entries with distinct ids. */
  lemma {:induction false} EmitDistinct(figs: seq<string>, info: map<string, MinifigRow>, figToSets: map<string, seq<string>>,
                                        swSets: map<string, SetRow>)
    requires forall p, q :: 0 <= p < q < |figs| ==> figs[p] != figs[q]
    ensures DistinctKeys(Emit(figs, info, figToSets, swSets), IdOf)
  {
    if figs != [] {
      var n := |figs| - 1;
      var before := Emit(figs[..n], info, figToSets, swSets);
      EmitDistinct(figs[..n], info, figToSets, swSets);
      forall k | 0 <= k < |before| ensures before[k].id != figs[n] {
        var i := EmitFrom(figs[..n], info, figToSets, swSets, k);
      }
    }
  }

  method EmitEntries(figs: seq<string>, info: map<string, MinifigRow>, figToSets: map<string, seq<string>>,
                     swSets: map<string, SetRow>) returns (catalog: seq<CatalogMinifig>)
    ensures catalog == Emit(figs, info, figToSets, swSets)
  {
    catalog := [];
    for i := 0 to |figs|
      invariant catalog == Emit(figs[..i], info, figToSets, swSets)
    {
      assert figs[..i + 1][..i] == figs[..i];
      var figNum := figs[i];
      if figNum in info {
        var m := info[figNum];
        var setIds := if figNum in figToSets then figToSets[figNum] else [];
        var figSets, minYear := ResolveSets(setIds, swSets);
        if minYear == 9999 {
          minYear := 2000;
        }
        catalog := catalog + [CatalogMinifig(figNum, m.name, m.imgUrl, minYear, Sort(figSets, YearOrder),
                                             GuessFaction(m.name), |figSets|)];
      }
    }
    PrefixAll(figs);
  }

  /** The catalog order: by id. */
  function IdOrder(a: CatalogMinifig, b: CatalogMinifig): int { Compare(a.id, b.id) }

  lemma IdOrderConsistent()
    ensures Consistent(IdOrder)
  {
    forall a: CatalogMinifig, b: CatalogMinifig ensures IdOrder(a, b) < 0 <==> IdOrder(b, a) > 0 {
      CompareAntisymmetric(a.id, b.id);
    }
    forall a: CatalogMinifig, b: CatalogMinifig, c: CatalogMinifig | IdOrder(a, b) <= 0 && IdOrder(b, c) <= 0
      ensures IdOrder(a, c) <= 0
    {
      CompareTransitive(a.id, b.id, c.id);
    }
  }

  /** `figToSets` built from the tables, given the Star Wars theme ids `sw`. */
  function Linked(sw: set<string>, sets: seq<SetRow>, invs: seq<InventoryRow>, ims: seq<InventoryMinifigRow>): (r: OMap<string, seq<string>>)
    ensures r.Valid()
  {
    FigToSets(ims, InventoryToSet(SwSets(sets, sw).keys, SetToInventory(invs)))
  }

  /** The entries before the final sort. */
  function Entries(sw: set<string>, minifigs: seq<MinifigRow>, sets: seq<SetRow>, invs: seq<InventoryRow>,
                   ims: seq<InventoryMinifigRow>): seq<CatalogMinifig>
  {
    var figToSets := Linked(sw, sets, invs, ims);
    Emit(FigNums(minifigs, figToSets), MinifigMap(minifigs), figToSets.values, SwSets(sets, sw).values)
  }

  /** The catalog built from the tables, given the Star Wars theme ids `sw`. */
  function CatalogOf(sw: set<string>, minifigs: seq<MinifigRow>, sets: seq<SetRow>, invs: seq<InventoryRow>,
                     ims: seq<InventoryMinifigRow>): seq<CatalogMinifig>
  {
    Sort(Entries(sw, minifigs, sets, invs, ims), IdOrder)
  }

  /** The catalog-building part of `main`, from the parsed tables to the sorted catalog. */
  method BuildCatalog(themes: seq<ThemeRow>, minifigs: seq<MinifigRow>, sets: seq<SetRow>, invs: seq<InventoryRow>,
                      ims: seq<InventoryMinifigRow>) returns (swThemeIds: set<string>, catalog: seq<CatalogMinifig>)
    ensures StarWarsRoot in swThemeIds && StarWarsLegacy in swThemeIds
    ensures ClosedUnder(themes, swThemeIds) && InEveryClosure(themes, swThemeIds)
    ensures catalog == CatalogOf(swThemeIds, minifigs, sets, invs, ims)
  {
    swThemeIds := StarWarsThemeIds(themes);
    var swSets := SelectStarWarsSets(sets, swThemeIds);
    var setToInventory := ChooseInventories(invs);
    var inventoryToSet := ReverseInventories(swSets.keys, setToInventory);
    var figToSets := LinkFigures(ims, inventoryToSet);
    var minifigMap := map[];
    for i := 0 to |minifigs|
      invariant minifigMap == LastByKey(FigKeys(minifigs)[..i], minifigs[..i])
    {
      LastByKeyStep(FigKeys(minifigs), minifigs, i);
      minifigMap := minifigMap[minifigs[i].figNum := minifigs[i]];
    }
    PrefixAll(minifigs);
    PrefixAll(FigKeys(minifigs));
    var swFigNums := CollectFigNums(minifigs, figToSets);
    var entries := EmitEntries(swFigNums, minifigMap, figToSets.values, swSets.values);
    catalog := Sort(entries, IdOrder);
  }

  /** The catalog is sorted by id and lists each id once. */
  lemma CatalogSortedUnique(sw: set<string>, minifigs: seq<MinifigRow>, sets: seq<SetRow>, invs: seq<InventoryRow>,
                            ims: seq<InventoryMinifigRow>)
    ensures var c := CatalogOf(sw, minifigs, sets, invs, ims);
      Sorted(c, IdOrder) && DistinctKeys(c, IdOf)
  {
    var figToSets := Linked(sw, sets, invs, ims);
    var figs := FigNums(minifigs, figToSets);
    FigNumsAreLinked(minifigs, figToSets);
    var entries := Entries(sw, minifigs, sets, invs, ims);
    EmitDistinct(figs, MinifigMap(minifigs), figToSets.values, SwSets(sets, sw).values);
    IdOrderConsistent();
    SortSorted(entries, IdOrder);
    SortDistinct(entries, IdOrder, IdOf);
  }

  /**
   * Every catalog entry is the entry of a figure linked to a Star Wars set
   * through a chosen inventory, and that figure has a minifigure row.
   */
  lemma CatalogEntryOf(sw: set<string>, minifigs: seq<MinifigRow>, sets: seq<SetRow>, invs: seq<InventoryRow>,
                       ims: seq<InventoryMinifigRow>, k: nat)
    requires k < |CatalogOf(sw, minifigs, sets, invs, ims)|
    ensures var figToSets := Linked(sw, sets, invs, ims);
      var e := CatalogOf(sw, minifigs, sets, invs, ims)[k];
      e.id in figToSets.values && e.id in MinifigMap(minifigs) &&
      e == EntryFor(e.id, MinifigMap(minifigs)[e.id], figToSets.values[e.id], SwSets(sets, sw).values)
  {
    var figToSets := Linked(sw, sets, invs, ims);
    var figs := FigNums(minifigs, figToSets);
    var entries := Entries(sw, minifigs, sets, invs, ims);
    var j := SortFrom(entries, IdOrder, k);
    var i := EmitFrom(figs, MinifigMap(minifigs), figToSets.values, SwSets(sets, sw).values, j);
    FigNumsAreLinked(minifigs, figToSets);
    assert figs[i] in figs;
  }

  /** A figure linked to a Star Wars set that has a minifigure row is in the catalog. */
  lemma CatalogHas(sw: set<string>, minifigs: seq<MinifigRow>, sets: seq<SetRow>, invs: seq<InventoryRow>,
                   ims: seq<InventoryMinifigRow>, fig: string) returns (k: nat)
    requires fig in Linked(sw, sets, invs, ims).values && fig in MinifigMap(minifigs)
    ensures k < |CatalogOf(sw, minifigs, sets, invs, ims)| && CatalogOf(sw, minifigs, sets, invs, ims)[k].id == fig
  {
    var figToSets := Linked(sw, sets, invs, ims);
    var figs := FigNums(minifigs, figToSets);
    FigNumsAreLinked(minifigs, figToSets);
    var i :| 0 <= i < |figs| && figs[i] == fig;
    var entries := Entries(sw, minifigs, sets, invs, ims);
    var j := EmitHas(figs, MinifigMap(minifigs), figToSets.values, SwSets(sets, sw).values, i);
    k := SortHas(entries, IdOrder, j);
  }
}
