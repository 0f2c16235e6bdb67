/**
 * A creature as the open5e API describes it (`Monster` in
 * src/open5e/monster.rs), reduced to the fields its Markdown page reads plus
 * the action-like lists it decodes, and the page itself (`Monster::to_md`).
 */
module Monsters {
  import opened Wrappers
  import opened Text
  import opened Decimal
  import opened Actions

  /**
   * The fields `to_md` reads, and the three action-like lists the record
   * decodes but the page never shows.
   */
  datatype Monster = Monster(
    name: string,
    race: string,
    armorClass: int,
    hitPoints: int,
    hitDice: string,
    strength: int,
    dexterity: int,
    constitution: int,
    intelligence: int,
    wisdom: int,
    charisma: int,
    strengthSave: Option<int>,
    dexteritySave: Option<int>,
    constitutionSave: Option<int>,
    intelligenceSave: Option<int>,
    wisdomSave: Option<int>,
    charismaSave: Option<int>,
    perception: Option<int>,
    conditionImmunities: string,
    languages: string,
    challengeRating: string,
    actions: seq<Action>,
    reactions: seq<Action>,
    legendaryActions: seq<Action>,
    specialAbilities: seq<Action>,
    spellList: seq<string>)

  /** The six ability scores, in table order. */
  function Scores(m: Monster): seq<int> {
    [m.strength, m.dexterity, m.constitution, m.intelligence, m.wisdom, m.charisma]
  }

  /** The six saving throws, in table order. */
  function Saves(m: Monster): seq<Option<int>> {
    [m.strengthSave, m.dexteritySave, m.constitutionSave, m.intelligenceSave, m.wisdomSave, m.charismaSave]
  }

  const NAME_PREFIX := "###Name:  "
  const RACE_PREFIX := "**Race:** "
  const AC_PREFIX := "- **Armor Class** "
  const HP_PREFIX := "- **Hit Points** "
  const HIT_DICE_PREFIX := "- **Hit Dice** "
  const TABLE_HEADER := "|STR|DEX|CON|INT|WIS|CHA|"
  const TABLE_ALIGN := "|:---:|:---:|:---:|:---:|:---:|:---:|"
  const RULE := "___"
  const IMMUNITIES_PREFIX := "- **Condition Immunities** "
  const PERCEPTION_PREFIX := "- **Passive Perception** "
  const LANGUAGES_PREFIX := "- **Languages** "
  const CHALLENGE_PREFIX := "- **Challenge** "
  const SPELLS_HEADING := "**Spells:**"
  const ACTIONS_HEADING := "**Actions:**"

  /** `Display` of each number. */
  function NumberCells(xs: seq<int>): (r: seq<string>)
    ensures |r| == |xs|
    ensures forall i :: 0 <= i < |xs| ==> r[i] == IntToString(xs[i])
  {
    if |xs| == 0 then [] else [IntToString(xs[0])] + NumberCells(xs[1..])
  }

  /** `Debug` of each optional number. */
  function DebugCells(xs: seq<Option<int>>): (r: seq<string>)
    ensures |r| == |xs|
    ensures forall i :: 0 <= i < |xs| ==> r[i] == DebugOption(xs[i])
  {
    if |xs| == 0 then [] else [DebugOption(xs[0])] + DebugCells(xs[1..])
  }

  /** A table row: every cell between bars, as `|{}|{}|...|`. */
  function Row(cells: seq<string>): string {
    "|" + Join(cells, "|") + "|"
  }

  // ---------------------------------------------------------------------
  // The page: what `to_md` shows, in three blocks of template lines, the
  // spell list and the Actions section.
  // ---------------------------------------------------------------------

  /** The five lines under the leading empty line: name, race, armor class, hit points, hit dice. */
  datatype Identity = Identity(name: string, race: string, armorClass: int, hitPoints: int, hitDice: string)

  /** The ability table: six scores and six saving throws. */
  datatype Abilities = Abilities(scores: seq<int>, saves: seq<Option<int>>)

  /** The four lines under the table's closing rule. */
  datatype Traits = Traits(conditionImmunities: string, perception: Option<int>, languages: string, challengeRating: string)

  /** Everything a page shows. */
  datatype MonsterPage = MonsterPage(identity: Identity, abilities: Abilities, traits: Traits, spells: seq<string>, actions: seq<Action>)

  function PageOf(m: Monster): MonsterPage {
    MonsterPage(
      Identity(m.name, m.race, m.armorClass, m.hitPoints, m.hitDice),
      Abilities(Scores(m), Saves(m)),
      Traits(m.conditionImmunities, m.perception, m.languages, m.challengeRating),
      m.spellList,
      m.actions)
  }

  function IdentityLines(i: Identity): (r: seq<string>)
    ensures |r| == 5
  {
    [ NAME_PREFIX + i.name,
      RACE_PREFIX + i.race,
      AC_PREFIX + IntToString(i.armorClass),
      HP_PREFIX + IntToString(i.hitPoints),
      HIT_DICE_PREFIX + i.hitDice ]
  }

  function TableLines(a: Abilities): (r: seq<string>)
    ensures |r| == 4
  {
    [TABLE_HEADER, TABLE_ALIGN, Row(NumberCells(a.scores)), Row(DebugCells(a.saves))]
  }

  function TraitLines(t: Traits): (r: seq<string>)
    ensures |r| == 4
  {
    [ IMMUNITIES_PREFIX + t.conditionImmunities,
      PERCEPTION_PREFIX + DebugOption(t.perception),
      LANGUAGES_PREFIX + t.languages,
      CHALLENGE_PREFIX + t.challengeRating ]
  }

  /** The template's lines from the leading empty line through the `**Spells:**` heading. */
  function StatLines(i: Identity, a: Abilities, t: Traits): (r: seq<string>)
    ensures |r| == 18
  {
    [""] + IdentityLines(i) + [""] + TableLines(a) + [RULE] + TraitLines(t) + ["", SPELLS_HEADING]
  }

  /** The spell section: the list joined by newlines, empty for an empty list. */
  function SpellText(spells: seq<string>): string {
    Join(spells, "\n")
  }

  /** What follows the spell heading: the spells, a blank line, the Actions section, the closing newline. */
  function BodyParts(spells: seq<string>, acts: seq<Action>): seq<string> {
    [SpellText(spells), "", ACTIONS_HEADING, ActionsText(acts), ""]
  }

  function PageText(p: MonsterPage): string {
    Join(StatLines(p.identity, p.abilities, p.traits) + BodyParts(p.spells, p.actions), "\n")
  }

  /**
   * `Monster::to_md`: the template's lines joined by newlines, with the spell
   * list joined by newlines and the renderings of `actions` concatenated in
   * order filling the last two placeholders.
   */
  function ToMd(m: Monster): string {
    PageText(PageOf(m))
  }

  // ---------------------------------------------------------------------
  // Reading a page back.
  // ---------------------------------------------------------------------

  /** No shown text field contains a line break. */
  predicate SingleLineFields(i: Identity, t: Traits) {
    && '\n' !in i.name && '\n' !in i.race && '\n' !in i.hitDice
    && '\n' !in t.conditionImmunities && '\n' !in t.languages && '\n' !in t.challengeRating
  }

  /** Six cells in each row of the table. */
  predicate TableShape(a: Abilities) {
    |a.scores| == 6 && |a.saves| == 6
  }

  /** Every spell is one non-empty line, so the list ends at the first blank line. */
  predicate SpellsLegible(spells: seq<string>) {
    forall k :: 0 <= k < |spells| ==> spells[k] != "" && '\n' !in spells[k]
  }

  /** Every action is shown, and shown on lines of its own. */
  predicate ActionsLegible(acts: seq<Action>) {
    forall k :: 0 <= k < |acts| ==> acts[k].name != "" && Readable(acts[k])
  }

  /** A page the reader can take apart again. */
  predicate Legible(p: MonsterPage) {
    && SingleLineFields(p.identity, p.traits)
    && TableShape(p.abilities)
    && SpellsLegible(p.spells)
    && ActionsLegible(p.actions)
  }

  /** The cells of a row of `n` cells, or None when the line is not one. */
  function ParseRow(line: string, n: nat): Option<seq<string>>
    requires n >= 1
  {
    var ps := Split(line, '|');
    if |ps| == n + 2 && ps[0] == "" && ps[n + 1] == "" then Some(ps[1..n + 1]) else None
  }

  function ParseNumberCells(cells: seq<string>): Option<seq<int>>
  {
    if |cells| == 0 then Some([])
    else
      var x :- ParseInt(cells[0]);
      var rest :- ParseNumberCells(cells[1..]);
      Some([x] + rest)
  }

  function ParseDebugCells(cells: seq<string>): Option<seq<Option<int>>>
  {
    if |cells| == 0 then Some([])
    else
      var x :- ParseDebugOption(cells[0]);
      var rest :- ParseDebugCells(cells[1..]);
      Some([x] + rest)
  }

  function ParseIdentity(ls: seq<string>): Option<Identity>
    requires |ls| == 5
  {
    var name :- StripAffixes(ls[0], NAME_PREFIX, "");
    var race :- StripAffixes(ls[1], RACE_PREFIX, "");
    var ac :- StripAffixes(ls[2], AC_PREFIX, "");
    var acValue :- ParseInt(ac);
    var hp :- StripAffixes(ls[3], HP_PREFIX, "");
    var hpValue :- ParseInt(hp);
    var dice :- StripAffixes(ls[4], HIT_DICE_PREFIX, "");
    Some(Identity(name, race, acValue, hpValue, dice))
  }

  function ParseAbilities(ls: seq<string>): Option<Abilities>
    requires |ls| == 4
  {
    if ls[0] != TABLE_HEADER || ls[1] != TABLE_ALIGN then None
    else
      var scoreCells :- ParseRow(ls[2], 6);
      var scores :- ParseNumberCells(scoreCells);
      var saveCells :- ParseRow(ls[3], 6);
      var saves :- ParseDebugCells(saveCells);
      Some(Abilities(scores, saves))
  }

  function ParseTraits(ls: seq<string>): Option<Traits>
    requires |ls| == 4
  {
    var ci :- StripAffixes(ls[0], IMMUNITIES_PREFIX, "");
    var pp :- StripAffixes(ls[1], PERCEPTION_PREFIX, "");
    var perception :- ParseDebugOption(pp);
    var lang :- StripAffixes(ls[2], LANGUAGES_PREFIX, "");
    var cr :- StripAffixes(ls[3], CHALLENGE_PREFIX, "");
    Some(Traits(ci, perception, lang, cr))
  }

  /** The three blocks of the first eighteen lines, or None when they are not a page's. */
  function ParseStats(h: seq<string>): Option<(Identity, Abilities, Traits)>
    requires |h| == 18
  {
    if h[0] != "" || h[6] != "" || h[11] != RULE || h[16] != "" || h[17] != SPELLS_HEADING then None
    else
      var i :- ParseIdentity(h[1..6]);
      var a :- ParseAbilities(h[7..11]);
      var t :- ParseTraits(h[12..16]);
      Some((i, a, t))
  }

  /** The index of the first empty line at or after `i`, or `|ls|` when there is none. */
  function FirstEmpty(ls: seq<string>, i: nat): (r: nat)
    requires i <= |ls|
    ensures i <= r <= |ls|
    ensures r < |ls| ==> ls[r] == ""
    decreases |ls| - i
  {
    if i == |ls| || ls[i] == "" then i else FirstEmpty(ls, i + 1)
  }

  /**
   * The spells and actions of the lines after the spell heading, or None.
   * The spells run to the first empty line; an empty list shows as one empty
   * line of its own before the blank line.
   */
  function ParseBody(b: seq<string>): Option<(seq<string>, seq<Action>)>
  {
    ParseBodyAt(b, FirstEmpty(b, 0))
  }

  /** The body whose spell list ends at line `k`. */
  function ParseBodyAt(b: seq<string>, k: nat): Option<(seq<string>, seq<Action>)>
    requires k <= |b|
  {
    var start := if k == 0 then 1 else k;
    if start + 3 <= |b| && b[start] == "" && b[start + 1] == ACTIONS_HEADING && Last(b) == "" then
      var acts :- ParseSectionLines(b[start + 2..|b| - 1]);
      Some((b[..k], acts))
    else
      None
  }

  /** The fields a page shows, or None when the text is not a page. */
  function ParseMonsterPage(text: string): Option<MonsterPage>
  {
    var ls := Split(text, '\n');
    if |ls| < 18 then None
    else
      var stats :- ParseStats(ls[..18]);
      var body :- ParseBody(ls[18..]);
      Some(MonsterPage(stats.0, stats.1, stats.2, body.0, body.1))
  }

  // ---------------------------------------------------------------------
  // Which characters the rendered pieces can hold.
  // ---------------------------------------------------------------------

  lemma NumberCellsFree(xs: seq<int>, ch: char)
    requires ch == '|' || ch == '\n'
    ensures forall k :: 0 <= k < |xs| ==> ch !in NumberCells(xs)[k]
  {
    forall k | 0 <= k < |xs|
      ensures ch !in NumberCells(xs)[k]
    {
      IntToStringFree(xs[k], ch);
    }
  }

  lemma DebugOptionFree(o: Option<int>, ch: char)
    requires ch == '|' || ch == '\n'
    ensures ch !in DebugOption(o)
  {
    if o.Some? {
      IntToStringFree(o.value, ch);
      assert ch !in "Some(" && ch !in ")";
    }
  }

  lemma DebugCellsFree(xs: seq<Option<int>>, ch: char)
    requires ch == '|' || ch == '\n'
    ensures forall k :: 0 <= k < |xs| ==> ch !in DebugCells(xs)[k]
  {
    forall k | 0 <= k < |xs|
      ensures ch !in DebugCells(xs)[k]
    {
      DebugOptionFree(xs[k], ch);
    }
  }

  lemma RowFree(cells: seq<string>)
    requires forall k :: 0 <= k < |cells| ==> '\n' !in cells[k]
    ensures '\n' !in Row(cells)
  {
    JoinFree(cells, "|", '\n');
  }

  lemma IdentityTemplateFree()
    ensures '\n' !in NAME_PREFIX && '\n' !in RACE_PREFIX && '\n' !in AC_PREFIX
    ensures '\n' !in HP_PREFIX && '\n' !in HIT_DICE_PREFIX
  {
  }

  lemma TableTemplateFree()
    ensures '\n' !in TABLE_HEADER && '\n' !in TABLE_ALIGN && '\n' !in RULE
  {
  }

  lemma TraitTemplateFree()
    ensures '\n' !in IMMUNITIES_PREFIX && '\n' !in PERCEPTION_PREFIX
    ensures '\n' !in LANGUAGES_PREFIX && '\n' !in CHALLENGE_PREFIX && '\n' !in SPELLS_HEADING
  {
  }

  lemma IdentityLinesFree(i: Identity)
    requires '\n' !in i.name && '\n' !in i.race && '\n' !in i.hitDice
    ensures forall k :: 0 <= k < 5 ==> '\n' !in IdentityLines(i)[k]
  {
    IdentityTemplateFree();
    IntToStringFree(i.armorClass, '\n');
    IntToStringFree(i.hitPoints, '\n');
    var ls := IdentityLines(i);
    assert '\n' !in ls[0] && '\n' !in ls[1] && '\n' !in ls[2] && '\n' !in ls[3] && '\n' !in ls[4];
  }

  lemma TableLinesFree(a: Abilities)
    ensures forall k :: 0 <= k < 4 ==> '\n' !in TableLines(a)[k]
  {
    TableTemplateFree();
    NumberCellsFree(a.scores, '\n');
    DebugCellsFree(a.saves, '\n');
    RowFree(NumberCells(a.scores));
    RowFree(DebugCells(a.saves));
  }

  lemma TraitLinesFree(t: Traits)
    requires '\n' !in t.conditionImmunities && '\n' !in t.languages && '\n' !in t.challengeRating
    ensures forall k :: 0 <= k < 4 ==> '\n' !in TraitLines(t)[k]
  {
    TraitTemplateFree();
    DebugOptionFree(t.perception, '\n');
    var ls := TraitLines(t);
    assert '\n' !in ls[0] && '\n' !in ls[1] && '\n' !in ls[2] && '\n' !in ls[3];
  }

  /** The eighteen template lines of a page with single-line fields are single lines. */
  lemma StatLinesFree(i: Identity, a: Abilities, t: Traits)
    requires SingleLineFields(i, t)
    ensures forall k :: 0 <= k < 18 ==> '\n' !in StatLines(i, a, t)[k]
  {
    IdentityLinesFree(i);
    TableLinesFree(a);
    TraitLinesFree(t);
    TableTemplateFree();
    TraitTemplateFree();
    var s, il, tl, rl := StatLines(i, a, t), IdentityLines(i), TableLines(a), TraitLines(t);
    assert forall k :: 1 <= k < 6 ==> s[k] == il[k - 1];
    assert forall k :: 7 <= k < 11 ==> s[k] == tl[k - 7];
    assert forall k :: 12 <= k < 16 ==> s[k] == rl[k - 12];
    assert s[0] == "" && s[6] == "" && s[11] == RULE && s[16] == "" && s[17] == SPELLS_HEADING;
  }

  // ---------------------------------------------------------------------
  // Reading rows and cells back.
  // ---------------------------------------------------------------------

  /** A row is its cells joined by bars, with an empty piece at each end. */
  lemma RowJoin(cells: seq<string>)
    requires |cells| >= 1
    ensures Row(cells) == Join([""] + cells + [""], "|")
  {
    var j := Join(cells, "|");
    JoinMiddleParts([""], cells, [""], "|");
    JoinUnfold([""] + [j] + [""], "|");
    assert ([""] + [j] + [""])[1..] == [j, ""];
    JoinUnfold([j, ""], "|");
    assert [j, ""][1..] == [""];
    AppendEmpty(j + "|", "");
    EmptyAppend("", "|");
  }

  /** A row of cells free of bars reads back as those cells. */
  lemma ParseRowOf(cells: seq<string>)
    requires |cells| >= 1
    requires forall k :: 0 <= k < |cells| ==> '|' !in cells[k]
    ensures ParseRow(Row(cells), |cells|) == Some(cells)
  {
    var ps := [""] + cells + [""];
    RowJoin(cells);
    assert ['|'] == "|";
    SplitJoin(ps, '|');
    assert ps[1..|cells| + 1] == cells;
  }

  /** A line the row reader accepts is the row of the cells it returns, and they are free of bars. */
  lemma ParseRowSound(line: string, n: nat, cells: seq<string>)
    requires n >= 1
    requires ParseRow(line, n) == Some(cells)
    ensures |cells| == n
    ensures forall k :: 0 <= k < n ==> '|' !in cells[k]
    ensures line == Row(cells)
  {
    var ps := Split(line, '|');
    SplitPiecesFree(line, '|');
    assert ps == [""] + cells + [""];
    RowJoin(cells);
    JoinSplit(line, '|');
    assert ['|'] == "|";
  }

  /** The number cell reader accepts exactly the `Display` texts of numbers. */
  lemma {:induction false} ParseNumberCellsIff(cells: seq<string>, xs: seq<int>)
    ensures ParseNumberCells(cells) == Some(xs) <==> cells == NumberCells(xs)
    decreases |cells|
  {
    if |cells| > 0 {
      if cells == NumberCells(xs) {
        ParseNumberCellsIff(cells[1..], xs[1..]);
        ParseIntOfIntToString(xs[0]);
        assert [xs[0]] + xs[1..] == xs;
      }
      if ParseNumberCells(cells) == Some(xs) {
        var x := ParseInt(cells[0]).value;
        var rest := ParseNumberCells(cells[1..]).value;
        ParseNumberCellsIff(cells[1..], rest);
        ParseIntIff(cells[0], x);
        assert xs == [x] + rest;
        assert xs[1..] == rest;
        assert cells == [cells[0]] + cells[1..];
      }
    } else if cells == NumberCells(xs) {
      assert xs == [];
    }
  }

  /** The `Debug` cell reader accepts exactly the `Debug` texts of optional numbers. */
  lemma {:induction false} ParseDebugCellsIff(cells: seq<string>, xs: seq<Option<int>>)
    ensures ParseDebugCells(cells) == Some(xs) <==> cells == DebugCells(xs)
    decreases |cells|
  {
    if |cells| > 0 {
      if cells == DebugCells(xs) {
        ParseDebugCellsIff(cells[1..], xs[1..]);
        ParseDebugOptionIff(cells[0], xs[0]);
        assert [xs[0]] + xs[1..] == xs;
      }
      if ParseDebugCells(cells) == Some(xs) {
        var x := ParseDebugOption(cells[0]).value;
        var rest := ParseDebugCells(cells[1..]).value;
        ParseDebugCellsIff(cells[1..], rest);
        ParseDebugOptionIff(cells[0], x);
        assert xs == [x] + rest;
        assert xs[1..] == rest;
        assert cells == [cells[0]] + cells[1..];
      }
    } else if cells == DebugCells(xs) {
      assert xs == [];
    }
  }

  // ---------------------------------------------------------------------
  // Reading the three blocks of template lines back.
  // ---------------------------------------------------------------------

  /** Stripping a prefix from a line made of it and a value gives the value. */
  lemma StripPrefixOf(prefix: string, x: string)
    ensures StripAffixes(prefix + x, prefix, "") == Some(x)
  {
    AppendEmpty(prefix + x, "");
    StripAffixesOf(prefix, x, "");
  }

  /** A line with a prefix stripped off is the prefix and what is left. */
  lemma StripPrefixSound(line: string, prefix: string, x: string)
    requires StripAffixes(line, prefix, "") == Some(x)
    ensures line == prefix + x
  {
    AppendEmpty(prefix + x, "");
  }

  /** Five lines read as an identity block exactly when they are that block's lines. */
  lemma ParseIdentityIff(ls: seq<string>, i: Identity)
    requires |ls| == 5
    ensures ParseIdentity(ls) == Some(i) <==> ls == IdentityLines(i)
  {
    if ls == IdentityLines(i) {
      StripPrefixOf(NAME_PREFIX, i.name);
      StripPrefixOf(RACE_PREFIX, i.race);
      StripPrefixOf(AC_PREFIX, IntToString(i.armorClass));
      ParseIntOfIntToString(i.armorClass);
      StripPrefixOf(HP_PREFIX, IntToString(i.hitPoints));
      ParseIntOfIntToString(i.hitPoints);
      StripPrefixOf(HIT_DICE_PREFIX, i.hitDice);
    }
    if ParseIdentity(ls) == Some(i) {
      var ac := StripAffixes(ls[2], AC_PREFIX, "").value;
      var hp := StripAffixes(ls[3], HP_PREFIX, "").value;
      StripPrefixSound(ls[0], NAME_PREFIX, i.name);
      StripPrefixSound(ls[1], RACE_PREFIX, i.race);
      StripPrefixSound(ls[2], AC_PREFIX, ac);
      ParseIntIff(ac, i.armorClass);
      StripPrefixSound(ls[3], HP_PREFIX, hp);
      ParseIntIff(hp, i.hitPoints);
      StripPrefixSound(ls[4], HIT_DICE_PREFIX, i.hitDice);
      var il := IdentityLines(i);
      assert forall k :: 0 <= k < 5 ==> ls[k] == il[k];
    }
  }

  /** Four lines read as a trait block exactly when they are that block's lines. */
  lemma ParseTraitsIff(ls: seq<string>, t: Traits)
    requires |ls| == 4
    ensures ParseTraits(ls) == Some(t) <==> ls == TraitLines(t)
  {
    if ls == TraitLines(t) {
      StripPrefixOf(IMMUNITIES_PREFIX, t.conditionImmunities);
      StripPrefixOf(PERCEPTION_PREFIX, DebugOption(t.perception));
      ParseDebugOptionIff(DebugOption(t.perception), t.perception);
      StripPrefixOf(LANGUAGES_PREFIX, t.languages);
      StripPrefixOf(CHALLENGE_PREFIX, t.challengeRating);
    }
    if ParseTraits(ls) == Some(t) {
      var pp := StripAffixes(ls[1], PERCEPTION_PREFIX, "").value;
      StripPrefixSound(ls[0], IMMUNITIES_PREFIX, t.conditionImmunities);
      StripPrefixSound(ls[1], PERCEPTION_PREFIX, pp);
      ParseDebugOptionIff(pp, t.perception);
      StripPrefixSound(ls[2], LANGUAGES_PREFIX, t.languages);
      StripPrefixSound(ls[3], CHALLENGE_PREFIX, t.challengeRating);
      var tl := TraitLines(t);
      assert forall k :: 0 <= k < 4 ==> ls[k] == tl[k];
    }
  }

  /** Four lines read as the ability table exactly when they are the table of six scores and six saves. */
  lemma ParseAbilitiesIff(ls: seq<string>, a: Abilities)
    requires |ls| == 4
    ensures ParseAbilities(ls) == Some(a) <==> TableShape(a) && ls == TableLines(a)
  {
    if TableShape(a) && ls == TableLines(a) {
      NumberCellsFree(a.scores, '|');
      ParseRowOf(NumberCells(a.scores));
      ParseNumberCellsIff(NumberCells(a.scores), a.scores);
      DebugCellsFree(a.saves, '|');
      ParseRowOf(DebugCells(a.saves));
      ParseDebugCellsIff(DebugCells(a.saves), a.saves);
    }
    if ParseAbilities(ls) == Some(a) {
      var sc := ParseRow(ls[2], 6).value;
      var sv := ParseRow(ls[3], 6).value;
      ParseRowSound(ls[2], 6, sc);
      ParseNumberCellsIff(sc, a.scores);
      ParseRowSound(ls[3], 6, sv);
      ParseDebugCellsIff(sv, a.saves);
      var tl := TableLines(a);
      assert forall k :: 0 <= k < 4 ==> ls[k] == tl[k];
    }
  }

  /** Where the three blocks sit among the eighteen template lines. */
  lemma StatSlices<T>(s: seq<T>, e: T, il: seq<T>, tl: seq<T>, rule: T, rl: seq<T>, sh: T)
    requires |il| == 5 && |tl| == 4 && |rl| == 4
    requires s == [e] + il + [e] + tl + [rule] + rl + [e, sh]
    ensures |s| == 18
    ensures s[0] == e && s[6] == e && s[11] == rule && s[16] == e && s[17] == sh
    ensures s[1..6] == il && s[7..11] == tl && s[12..16] == rl
  {
  }

  /** Two sequences of eighteen that agree on the single lines and on the three blocks are equal. */
  lemma StatsEqual<T>(h: seq<T>, s: seq<T>)
    requires |h| == 18 && |s| == 18
    requires h[0] == s[0] && h[6] == s[6] && h[11] == s[11] && h[16] == s[16] && h[17] == s[17]
    requires h[1..6] == s[1..6] && h[7..11] == s[7..11] && h[12..16] == s[12..16]
    ensures h == s
  {
    assert forall k :: 1 <= k < 6 ==> h[k] == h[1..6][k - 1] && s[k] == s[1..6][k - 1];
    assert forall k :: 7 <= k < 11 ==> h[k] == h[7..11][k - 7] && s[k] == s[7..11][k - 7];
    assert forall k :: 12 <= k < 16 ==> h[k] == h[12..16][k - 12] && s[k] == s[12..16][k - 12];
  }

  /** The first eighteen lines read as a page's three blocks exactly when they are those blocks' lines. */
  lemma ParseStatsIff(h: seq<string>, i: Identity, a: Abilities, t: Traits)
    requires |h| == 18
    ensures ParseStats(h) == Some((i, a, t)) <==> TableShape(a) && h == StatLines(i, a, t)
  {
    var s := StatLines(i, a, t);
    StatSlices(s, "", IdentityLines(i), TableLines(a), RULE, TraitLines(t), SPELLS_HEADING);
    ParseIdentityIff(h[1..6], i);
    ParseAbilitiesIff(h[7..11], a);
    ParseTraitsIff(h[12..16], t);
    if ParseStats(h) == Some((i, a, t)) {
      StatsEqual(h, s);
    }
  }

  // ---------------------------------------------------------------------
  // Reading the spells and the Actions section back.
  // ---------------------------------------------------------------------

  /** The lines the spell section occupies: one empty line for no spells, else one line per spell. */
  function SpellLines(spells: seq<string>): (r: seq<string>)
    ensures |r| >= 1
  {
    if |spells| == 0 then [""] else spells
  }

  lemma SplitSpellText(spells: seq<string>)
    requires SpellsLegible(spells)
    ensures Split(SpellText(spells), '\n') == SpellLines(spells)
  {
    if |spells| > 0 {
      assert ['\n'] == "\n";
      SplitJoin(spells, '\n');
    }
  }

  /** The lines after the spell heading of a legible page. */
  function BodyLines(spells: seq<string>, acts: seq<Action>): seq<string> {
    SpellLines(spells) + ["", ACTIONS_HEADING] + ActionLines(acts) + ["", ""]
  }

  /** Where each piece of a body-shaped sequence sits. */
  lemma BodySlices<T>(b: seq<T>, sl: seq<T>, x: T, y: T, al: seq<T>, z: T)
    requires b == sl + [x, y] + al + [z, z]
    ensures |b| == |sl| + |al| + 4
    ensures b[..|sl|] == sl
    ensures forall j :: 0 <= j < |sl| ==> b[j] == sl[j]
    ensures b[|sl|] == x && b[|sl| + 1] == y && Last(b) == z
    ensures b[|sl| + 2..|b| - 1] == al + [z]
  {
  }

  /** An index with only non-empty lines before it and an empty line at it is the first empty line. */
  lemma {:induction false} FirstEmptyAt(ls: seq<string>, i: nat, k: nat)
    requires i <= k < |ls| && ls[k] == ""
    requires forall j :: i <= j < k ==> ls[j] != ""
    ensures FirstEmpty(ls, i) == k
    decreases k - i
  {
    if i < k {
      FirstEmptyAt(ls, i + 1, k);
    }
  }

  /** Every line before the first empty one is non-empty. */
  lemma {:induction false} FirstEmptyBefore(ls: seq<string>, i: nat)
    requires i <= |ls|
    ensures forall j :: i <= j < FirstEmpty(ls, i) ==> ls[j] != ""
    decreases |ls| - i
  {
    if i < |ls| && ls[i] != "" {
      FirstEmptyBefore(ls, i + 1);
    }
  }

  /** The body reader accepts lines whose pieces sit where it looks for them. */
  lemma ParseBodyWhere(b: seq<string>, sl: seq<string>, spells: seq<string>, acts: seq<Action>)
    requires FirstEmpty(b, 0) == |spells| && |sl| == (if |spells| == 0 then 1 else |spells|)
    requires |sl| + 3 <= |b| && b[|sl|] == "" && b[|sl| + 1] == ACTIONS_HEADING && Last(b) == ""
    requires ParseSectionLines(b[|sl| + 2..|b| - 1]) == Some(acts)
    requires b[..|spells|] == spells
    ensures ParseBody(b) == Some((spells, acts))
  {
    var k, start := |spells|, |sl|;
    assert k <= |b| && start == (if k == 0 then 1 else k);
    assert start + 3 <= |b| && b[start] == "" && b[start + 1] == ACTIONS_HEADING && Last(b) == "";
    assert ParseSectionLines(b[start + 2..|b| - 1]) == Some(acts);
    assert b[..k] == spells;
    ParseBodyAtOf(b, k, start, spells, acts);
  }

  lemma ParseBodyAtOf(b: seq<string>, k: nat, start: nat, spells: seq<string>, acts: seq<Action>)
    requires k <= |b| && start == (if k == 0 then 1 else k)
    requires start + 3 <= |b| && b[start] == "" && b[start + 1] == ACTIONS_HEADING && Last(b) == ""
    requires ParseSectionLines(b[start + 2..|b| - 1]) == Some(acts)
    requires b[..k] == spells
    ensures ParseBodyAt(b, k) == Some((spells, acts))
  {
  }

  /** Legible spells end at the first empty line after them. */
  lemma SpellsEnd(b: seq<string>, spells: seq<string>)
    requires SpellsLegible(spells)
    requires var sl := SpellLines(spells);
      |sl| < |b| && b[|sl|] == "" && b[..|sl|] == sl
    ensures FirstEmpty(b, 0) == |spells| && b[..|spells|] == spells
  {
    var sl := SpellLines(spells);
    assert forall j :: 0 <= j < |sl| ==> b[j] == b[..|sl|][j];
    FirstEmptyAt(b, 0, |spells|);
  }

  /** The body reader gives back the spells and actions of a legible page. */
  lemma ParseBodyOf(spells: seq<string>, acts: seq<Action>)
    requires SpellsLegible(spells) && ActionsLegible(acts)
    ensures ParseBody(BodyLines(spells, acts)) == Some((spells, acts))
  {
    var sl, al := SpellLines(spells), ActionLines(acts);
    var b := BodyLines(spells, acts);
    BodySlices(b, sl, "", ACTIONS_HEADING, al, "");
    SpellsEnd(b, spells);
    ParseSectionLinesOf(acts);
    assert |sl| == (if |spells| == 0 then 1 else |spells|);
    assert |sl| + 3 <= |b|;
    assert b[|sl|] == "" && b[|sl| + 1] == ACTIONS_HEADING;
    assert Last(b) == "";
    assert ParseSectionLines(b[|sl| + 2..|b| - 1]) == Some(acts);
    assert b[..|spells|] == spells;
    assert FirstEmpty(b, 0) == |spells|;
    ParseBodyWhere(b, sl, spells, acts);
  }

  /** Four parts of a join where two are themselves joins. */
  lemma BodyJoin(l: seq<string>, r: seq<string>)
    requires |l| >= 1 && |r| >= 1
    ensures Join(l + ["", ACTIONS_HEADING] + r + [""], "\n")
         == Join([Join(l, "\n"), "", ACTIONS_HEADING, Join(r, "\n"), ""], "\n")
  {
    var jl, jr := Join(l, "\n"), Join(r, "\n");
    var q := ["", ACTIONS_HEADING, jr, ""];
    JoinMiddleParts(l + ["", ACTIONS_HEADING], r, [""], "\n");
    assert l + ["", ACTIONS_HEADING] + [jr] + [""] == l + q;
    JoinConcat(l, q, "\n");
    JoinConcat([jl], q, "\n");
    assert [jl] + q == [jl, "", ACTIONS_HEADING, jr, ""];
  }

  /** What the body reader checked when it accepted lines. */
  lemma ParseBodyAtSound(b: seq<string>, k: nat, start: nat, spells: seq<string>, acts: seq<Action>)
    requires k <= |b| && start == (if k == 0 then 1 else k)
    requires ParseBodyAt(b, k) == Some((spells, acts))
    ensures start + 3 <= |b| && b[start] == "" && b[start + 1] == ACTIONS_HEADING && Last(b) == ""
    ensures ParseSectionLines(b[start + 2..|b| - 1]) == Some(acts)
    ensures spells == b[..k]
  {
  }

  /** A sequence cut around the two lines at `start` and its last line. */
  lemma CutAround<T>(b: seq<T>, start: nat)
    requires start + 3 <= |b|
    ensures b == b[..start] + [b[start], b[start + 1]] + b[start + 2..|b| - 1] + [Last(b)]
  {
  }

  /** The lines the spell section occupies, as the body reader finds them, join to the spell text. */
  lemma SpellTextOfLines(b: seq<string>, k: nat, spells: seq<string>)
    requires k <= |b| && (k == 0 ==> 0 < |b| && b[0] == "")
    requires spells == b[..k]
    ensures Join(b[..if k == 0 then 1 else k], "\n") == SpellText(spells)
  {
    if k == 0 {
      assert b[..1] == [b[0]];
    }
  }

  /** Body lines cut into the spell lines, the heading pair, the action lines and the closing line. */
  lemma BodyTextParts(b: seq<string>, l: seq<string>, r: seq<string>, spells: seq<string>, acts: seq<Action>)
    requires |l| >= 1 && |r| >= 1 && b == l + ["", ACTIONS_HEADING] + r + [""]
    requires Join(l, "\n") == SpellText(spells) && Join(r, "\n") == ActionsText(acts)
    ensures Join(b, "\n") == Join(BodyParts(spells, acts), "\n")
  {
    BodyJoin(l, r);
  }

  /** Body lines with the pieces the body reader checks join to the text of what it read from them. */
  lemma BodyTextOf(b: seq<string>, k: nat, start: nat, spells: seq<string>, acts: seq<Action>)
    requires k <= |b| && start == (if k == 0 then 1 else k) && start + 4 <= |b|
    requires b[start] == "" && b[start + 1] == ACTIONS_HEADING && Last(b) == ""
    requires k == 0 ==> b[0] == ""
    requires spells == b[..k]
    requires Join(b[start + 2..|b| - 1], "\n") == ActionsText(acts)
    ensures Join(b, "\n") == Join(BodyParts(spells, acts), "\n")
  {
    var l, r := b[..start], b[start + 2..|b| - 1];
    SpellTextOfLines(b, k, spells);
    assert Join(l, "\n") == SpellText(spells);
    CutAround(b, start);
    assert b == l + ["", ACTIONS_HEADING] + r + [""];
    assert |l| >= 1 && |r| >= 1;
    assert Join(r, "\n") == ActionsText(acts);
    BodyTextParts(b, l, r, spells, acts);
  }

  /** The spells read from a body are its lines before the first empty one. */
  lemma SpellsOfBody(b: seq<string>, k: nat, spells: seq<string>)
    requires k <= |b| && spells == b[..k]
    requires forall j :: 0 <= j < k ==> b[j] != ""
    requires forall j :: 0 <= j < |b| ==> '\n' !in b[j]
    ensures SpellsLegible(spells)
  {
    assert forall j :: 0 <= j < |spells| ==> spells[j] == b[j];
  }

  /** The actions the body reader reads are named, and their lines join to their renderings. */
  lemma ActionsOfBody(b: seq<string>, start: nat, acts: seq<Action>)
    requires start + 3 <= |b| && ParseSectionLines(b[start + 2..|b| - 1]) == Some(acts)
    ensures start + 4 <= |b|
    ensures forall j :: 0 <= j < |acts| ==> acts[j].name != ""
    ensures Join(b[start + 2..|b| - 1], "\n") == ActionsText(acts)
  {
    ParseSectionLinesSound(b[start + 2..|b| - 1], acts);
  }

  /** The actions read from newline-free body lines are readable. */
  lemma ActionsReadable(b: seq<string>, start: nat, acts: seq<Action>)
    requires forall j :: 0 <= j < |b| ==> '\n' !in b[j]
    requires start + 3 <= |b| && ParseSectionLines(b[start + 2..|b| - 1]) == Some(acts)
    ensures forall j :: 0 <= j < |acts| ==> Readable(acts[j])
  {
    var sec := b[start + 2..|b| - 1];
    assert forall j :: 0 <= j < |sec| ==> sec[j] == b[start + 2 + j];
    ParseSectionLinesReadable(sec, acts);
  }

  /** Body lines holding what the body reader checks: the spells are legible and the lines join back. */
  lemma BodyFactsSound(b: seq<string>, k: nat, start: nat, spells: seq<string>, acts: seq<Action>)
    requires forall j :: 0 <= j < |b| ==> '\n' !in b[j]
    requires k <= |b| && (forall j :: 0 <= j < k ==> b[j] != "")
    requires start == (if k == 0 then 1 else k) && start + 3 <= |b| && (k == 0 ==> b[0] == "")
    requires b[start] == "" && b[start + 1] == ACTIONS_HEADING && Last(b) == ""
    requires ParseSectionLines(b[start + 2..|b| - 1]) == Some(acts)
    requires spells == b[..k]
    ensures SpellsLegible(spells)
    ensures forall j :: 0 <= j < |acts| ==> acts[j].name != ""
    ensures forall j :: 0 <= j < |acts| ==> Readable(acts[j])
    ensures Join(b, "\n") == Join(BodyParts(spells, acts), "\n")
  {
    ActionsOfBody(b, start, acts);
    ActionsReadable(b, start, acts);
    SpellsOfBody(b, k, spells);
    BodyTextOf(b, k, start, spells, acts);
  }

  /**
   * What the body reader checked when it accepted lines: the spells are the
   * non-empty lines before the first empty one, and the empty line, the
   * Actions heading, the action lines and the closing empty line follow.
   */
  lemma ParseBodyFacts(b: seq<string>, k: nat, start: nat, spells: seq<string>, acts: seq<Action>)
    requires k == FirstEmpty(b, 0) && start == (if k == 0 then 1 else k)
    requires ParseBody(b) == Some((spells, acts))
    ensures k <= |b| && forall j :: 0 <= j < k ==> b[j] != ""
    ensures start + 3 <= |b| && (k == 0 ==> b[0] == "")
    ensures b[start] == "" && b[start + 1] == ACTIONS_HEADING && Last(b) == ""
    ensures ParseSectionLines(b[start + 2..|b| - 1]) == Some(acts)
    ensures spells == b[..k]
  {
    FirstEmptyBefore(b, 0);
    ParseBodyAtSound(b, k, start, spells, acts);
  }

  // ---------------------------------------------------------------------
  // Reading a whole page back.
  // ---------------------------------------------------------------------

  lemma FiveParts<T>(x1: T, x2: T, x3: T, x4: T, x5: T)
    ensures [x1, x2, x3, x4, x5] == [x1] + ([x2, x3] + ([x4] + [x5]))
  {
  }

  /** The pieces of five parts where the second, third and fifth are single pieces. */
  lemma SplitFive(x1: string, x2: string, x3: string, x4: string, x5: string, c: char)
    requires c !in x2 && c !in x3 && c !in x5
    ensures SplitEach([x1, x2, x3, x4, x5], c) == Split(x1, c) + [x2, x3] + Split(x4, c) + [x5]
  {
    var s1, s4 := Split(x1, c), Split(x4, c);
    var mid, tail := [x2, x3], [x4] + [x5];
    SplitEachConcat([x4], [x5], c);
    SplitEachSingle(x4, c);
    SplitEachFree([x5], c);
    assert SplitEach(tail, c) == s4 + [x5];
    SplitEachConcat(mid, tail, c);
    SplitEachFree(mid, c);
    assert SplitEach(mid + tail, c) == mid + (s4 + [x5]);
    SplitEachConcat([x1], mid + tail, c);
    SplitEachSingle(x1, c);
    assert SplitEach([x1] + (mid + tail), c) == s1 + (mid + (s4 + [x5]));
    FiveParts(x1, x2, x3, x4, x5);
    SeqAssoc(mid, s4, [x5]);
    SeqAssoc(s1, mid + s4, [x5]);
    SeqAssoc(s1, mid, s4);
  }

  /** The pieces of the parts after the spell heading. */
  lemma SplitBodyParts(spells: seq<string>, acts: seq<Action>)
    ensures SplitEach(BodyParts(spells, acts), '\n')
         == Split(SpellText(spells), '\n') + ["", ACTIONS_HEADING] + Split(ActionsText(acts), '\n') + [""]
  {
    TraitTemplateFree();
    assert '\n' !in ACTIONS_HEADING;
    SplitFive(SpellText(spells), "", ACTIONS_HEADING, ActionsText(acts), "", '\n');
  }

  /** The closing empty line of the actions and the template's closing empty line, regrouped. */
  lemma BodyRegroup<T>(sl: seq<T>, x: T, y: T, al: seq<T>, z: T)
    ensures sl + [x, y] + (al + [z]) + [z] == sl + [x, y] + al + [z, z]
  {
  }

  /** The lines of a legible page: eighteen template lines, then the body's lines. */
  lemma PageLines(p: MonsterPage)
    requires Legible(p)
    ensures Split(PageText(p), '\n')
         == StatLines(p.identity, p.abilities, p.traits) + BodyLines(p.spells, p.actions)
  {
    var s, bp := StatLines(p.identity, p.abilities, p.traits), BodyParts(p.spells, p.actions);
    var sl, al := SpellLines(p.spells), ActionLines(p.actions);
    assert ['\n'] == "\n";
    SplitJoinEach(s + bp, '\n');
    assert Split(PageText(p), '\n') == SplitEach(s + bp, '\n');
    SplitEachConcat(s, bp, '\n');
    StatLinesFree(p.identity, p.abilities, p.traits);
    SplitEachFree(s, '\n');
    SplitBodyParts(p.spells, p.actions);
    SplitSpellText(p.spells);
    NamedAllNamed(p.actions);
    SplitActionsText(p.actions);
    assert SplitEach(bp, '\n') == sl + ["", ACTIONS_HEADING] + (al + [""]) + [""];
    BodyRegroup(sl, "", ACTIONS_HEADING, al, "");
  }

  /** Reading a legible page gives back every field it shows. */
  lemma ParseMonsterPageOf(p: MonsterPage)
    requires Legible(p)
    ensures ParseMonsterPage(PageText(p)) == Some(p)
  {
    var s, b := StatLines(p.identity, p.abilities, p.traits), BodyLines(p.spells, p.actions);
    PageLines(p);
    var ls := s + b;
    assert ls[..18] == s && ls[18..] == b;
    ParseStatsIff(s, p.identity, p.abilities, p.traits);
    ParseBodyOf(p.spells, p.actions);
  }

  /** A newline-free line holds no newline in what follows its prefix. */
  lemma SuffixFree(prefix: string, x: string)
    requires '\n' !in prefix + x
    ensures '\n' !in x
  {
    assert forall j :: 0 <= j < |x| ==> x[j] == (prefix + x)[|prefix| + j];
  }

  /** The text fields of single template lines are single-line. */
  lemma StatFieldsFree(i: Identity, a: Abilities, t: Traits)
    requires forall k :: 0 <= k < 18 ==> '\n' !in StatLines(i, a, t)[k]
    ensures SingleLineFields(i, t)
  {
    var s := StatLines(i, a, t);
    assert '\n' !in s[1] && '\n' !in s[2] && '\n' !in s[5];
    assert '\n' !in s[12] && '\n' !in s[14] && '\n' !in s[15];
    SuffixFree(NAME_PREFIX, i.name);
    SuffixFree(RACE_PREFIX, i.race);
    SuffixFree(HIT_DICE_PREFIX, i.hitDice);
    SuffixFree(IMMUNITIES_PREFIX, t.conditionImmunities);
    SuffixFree(LANGUAGES_PREFIX, t.languages);
    SuffixFree(CHALLENGE_PREFIX, t.challengeRating);
  }

  /** What the page reader checked when it accepted a text. */
  lemma ParseMonsterPageParts(text: string, p: MonsterPage)
    requires ParseMonsterPage(text) == Some(p)
    ensures |Split(text, '\n')| >= 18
    ensures ParseStats(Split(text, '\n')[..18]) == Some((p.identity, p.abilities, p.traits))
    ensures ParseBody(Split(text, '\n')[18..]) == Some((p.spells, p.actions))
  {
  }

  /** Cutting a sequence of pieces free of `c` in two: both halves are free of `c` and make up the whole. */
  lemma CutFree(ls: seq<string>, n: nat, c: char)
    requires n <= |ls|
    requires forall j :: 0 <= j < |ls| ==> c !in ls[j]
    ensures ls == ls[..n] + ls[n..]
    ensures forall j :: 0 <= j < n ==> c !in ls[..n][j]
    ensures forall j :: 0 <= j < |ls| - n ==> c !in ls[n..][j]
  {
    assert forall j :: 0 <= j < n ==> ls[..n][j] == ls[j];
    assert forall j :: 0 <= j < |ls| - n ==> ls[n..][j] == ls[n + j];
  }

  /** A text the page reader accepts is exactly the page of what it returns. */
  lemma ParseMonsterPageSound(text: string, p: MonsterPage)
    requires ParseMonsterPage(text) == Some(p)
    ensures SingleLineFields(p.identity, p.traits) && TableShape(p.abilities)
    ensures Legible(p)
    ensures PageText(p) == text
  {
    ParseMonsterPageParts(text, p);
    var ls := Split(text, '\n');
    SplitPiecesFree(text, '\n');
    var h, b := ls[..18], ls[18..];
    CutFree(ls, 18, '\n');
    var s := StatLines(p.identity, p.abilities, p.traits);
    ParseStatsIff(h, p.identity, p.abilities, p.traits);
    StatFieldsFree(p.identity, p.abilities, p.traits);
    var k := FirstEmpty(b, 0);
    var start := if k == 0 then 1 else k;
    ParseBodyFacts(b, k, start, p.spells, p.actions);
    BodyFactsSound(b, k, start, p.spells, p.actions);
    JoinConcat(h, b, "\n");
    JoinConcat(s, BodyParts(p.spells, p.actions), "\n");
    JoinSplit(text, '\n');
    assert ['\n'] == "\n";
  }

  /** The page reader accepts a text exactly when it is the page of those fields and the page is legible. */
  lemma ParseMonsterPageIff(text: string, p: MonsterPage)
    ensures ParseMonsterPage(text) == Some(p) <==> Legible(p) && text == PageText(p)
  {
    if ParseMonsterPage(text) == Some(p) {
      ParseMonsterPageSound(text, p);
    }
    if Legible(p) && text == PageText(p) {
      ParseMonsterPageOf(p);
    }
  }

  // ---------------------------------------------------------------------
  // `Monster::to_md`.
  // ---------------------------------------------------------------------

  /** What the page of `m` shows: its fields, with only the named actions. */
  function ShownPage(m: Monster): MonsterPage {
    PageOf(m).(actions := Named(m.actions))
  }

  /** A creature whose page can be read back: single-line fields, legible spells, readable actions. */
  predicate Printable(m: Monster) {
    && SingleLineFields(PageOf(m).identity, PageOf(m).traits)
    && SpellsLegible(m.spellList)
    && (forall k :: 0 <= k < |m.actions| ==> Readable(m.actions[k]))
  }

  /** Unnamed actions leave no trace on the page. */
  lemma ToMdShown(m: Monster)
    ensures ToMd(m) == PageText(ShownPage(m))
  {
    ActionsTextNamed(m.actions);
  }

  /**
   * Reading the page of a printable creature gives back every field the
   * template shows, and the actions with a non-empty name in order.
   */
  lemma ToMdReadBack(m: Monster)
    requires Printable(m)
    ensures ParseMonsterPage(ToMd(m)) == Some(ShownPage(m))
  {
    ToMdShown(m);
    NamedReadable(m.actions);
    ParseMonsterPageOf(ShownPage(m));
  }

  /**
   * Two printable creatures have the same page exactly when they agree on
   * what it shows: the record's other fields, the reactions, the legendary
   * actions and the special abilities never reach it.
   */
  lemma ToMdSameIff(m1: Monster, m2: Monster)
    requires Printable(m1) && Printable(m2)
    ensures ToMd(m1) == ToMd(m2) <==> ShownPage(m1) == ShownPage(m2)
  {
    ToMdReadBack(m1);
    ToMdReadBack(m2);
    ToMdShown(m1);
    ToMdShown(m2);
  }

  /** The lists the record decodes but the template never reads do not change the page. */
  lemma ToMdIgnoresUnshown(m: Monster, reactions: seq<Action>, legendary: seq<Action>, special: seq<Action>)
    ensures ToMd(m.(reactions := reactions, legendaryActions := legendary, specialAbilities := special)) == ToMd(m)
  {
  }

  /** A join whose last two parts are `x` and the empty closing part. */
  lemma JoinCloses(front: seq<string>, x: string)
    requires |front| >= 1
    ensures Join(front + [x, ""], "\n") == Join(front, "\n") + "\n" + x + "\n"
  {
    assert front + [x, ""] == (front + [x]) + [""];
    JoinSnoc(front + [x], "", "\n");
    JoinSnoc(front, x, "\n");
    AppendEmpty(Join(front + [x], "\n") + "\n", "");
  }

  /** The page above the actions: everything through the Actions heading. */
  function Preamble(p: MonsterPage): string {
    Join(StatLines(p.identity, p.abilities, p.traits) + [SpellText(p.spells), "", ACTIONS_HEADING], "\n")
  }

  lemma SnocTwo<T>(s: seq<T>, a: T, b: T, c: T, d: T, e: T)
    ensures s + [a, b, c, d, e] == (s + [a, b, c]) + [d, e]
  {
  }

  /** A page's lines with the actions text and the closing part split off. */
  lemma JoinPageCloses(s: seq<string>, sp: string, h: string, at: string)
    requires |s| >= 1
    ensures Join(s + [sp, "", h, at, ""], "\n") == Join(s + [sp, "", h], "\n") + "\n" + at + "\n"
  {
    SnocTwo(s, sp, "", h, at, "");
    JoinCloses(s + [sp, "", h], at);
  }

  lemma PageTextEnd(p: MonsterPage)
    ensures PageText(p) == Preamble(p) + "\n" + ActionsText(p.actions) + "\n"
  {
    JoinPageCloses(StatLines(p.identity, p.abilities, p.traits), SpellText(p.spells), ACTIONS_HEADING, ActionsText(p.actions));
  }

  /** Dropping the last character of `x`, a newline, the empty string and a newline. */
  lemma DropClosing(x: string)
    ensures var t := x + "\n" + "" + "\n"; |t| >= 1 && t[..|t| - 1] == x + "\n"
  {
  }

  /**
   * The actions fill the page's last placeholder: the page is the page
   * without actions, less its closing newline, then each action's rendering
   * in order, then the closing newline.
   */
  lemma ActionsAtEnd(m: Monster)
    ensures var bare := ToMd(m.(actions := []));
      && |bare| >= 1
      && ToMd(m) == bare[..|bare| - 1] + ActionsText(m.actions) + "\n"
  {
    var p, p0 := PageOf(m), PageOf(m.(actions := []));
    assert p0 == p.(actions := []);
    assert Preamble(p0) == Preamble(p);
    PageTextEnd(p);
    PageTextEnd(p0);
    assert ActionsText(p0.actions) == "";
    DropClosing(Preamble(p));
  }

  // ---------------------------------------------------------------------
  // The page line by line.
  // ---------------------------------------------------------------------

  /** A row of bar-free cells splits at the bars into its cells, with an empty piece at each end. */
  lemma RowCells(cells: seq<string>)
    requires |cells| >= 1
    requires forall k :: 0 <= k < |cells| ==> '|' !in cells[k]
    ensures Split(Row(cells), '|') == [""] + cells + [""]
  {
    RowJoin(cells);
    assert ['|'] == "|";
    SplitJoin([""] + cells + [""], '|');
  }

  /**
   * The eighteen template lines above the spell list: the leading empty line,
   * name (after two spaces), race, armor class, hit points, hit dice, an
   * empty line, the table header, its alignment row, the scores row and the
   * saves row (see `ScoresRowShow` and `SavesRowShow`), the rule, condition immunities, passive perception,
   * languages, challenge, an empty line and the spell heading.
   */
  lemma StatLinesShow(m: Monster)
    ensures var p := PageOf(m);
      var s := StatLines(p.identity, p.abilities, p.traits);
      && s[0] == ""
      && s[1] == "###Name:  " + m.name
      && s[2] == "**Race:** " + m.race
      && s[3] == "- **Armor Class** " + IntToString(m.armorClass)
      && s[4] == "- **Hit Points** " + IntToString(m.hitPoints)
      && s[5] == "- **Hit Dice** " + m.hitDice
      && s[6] == ""
      && s[7] == "|STR|DEX|CON|INT|WIS|CHA|"
      && s[8] == "|:---:|:---:|:---:|:---:|:---:|:---:|"
      && s[9] == Row(NumberCells(Scores(m)))
      && s[10] == Row(DebugCells(Saves(m)))
      && s[11] == "___"
      && s[12] == "- **Condition Immunities** " + m.conditionImmunities
      && s[13] == "- **Passive Perception** " + DebugOption(m.perception)
      && s[14] == "- **Languages** " + m.languages
      && s[15] == "- **Challenge** " + m.challengeRating
      && s[16] == ""
      && s[17] == "**Spells:**"
  {
    var p := PageOf(m);
    var s := StatLines(p.identity, p.abilities, p.traits);
    StatSlices(s, "", IdentityLines(p.identity), TableLines(p.abilities), RULE, TraitLines(p.traits), SPELLS_HEADING);
  }

  /** Six elements given one by one, and with an empty piece on each side. */
  lemma SixCells<T>(r: seq<T>, e: T, c1: T, c2: T, c3: T, c4: T, c5: T, c6: T)
    requires |r| == 6 && r[0] == c1 && r[1] == c2 && r[2] == c3 && r[3] == c4 && r[4] == c5 && r[5] == c6
    ensures [e] + r + [e] == [e, c1, c2, c3, c4, c5, c6, e]
  {
  }

  /** The scores row: the six scores in `Display` form, in table order, between bars. */
  lemma ScoresRowShow(m: Monster)
    ensures Split(Row(NumberCells(Scores(m))), '|')
         == ["", IntToString(m.strength), IntToString(m.dexterity), IntToString(m.constitution),
                 IntToString(m.intelligence), IntToString(m.wisdom), IntToString(m.charisma), ""]
  {
    var xs := Scores(m);
    var sc := NumberCells(xs);
    NumberCellsFree(xs, '|');
    RowCells(sc);
    SixCells(sc, "", IntToString(xs[0]), IntToString(xs[1]), IntToString(xs[2]),
             IntToString(xs[3]), IntToString(xs[4]), IntToString(xs[5]));
  }

  /** The saves row: the six saves in `Debug` form, in table order, between bars. */
  lemma SavesRowShow(m: Monster)
    ensures Split(Row(DebugCells(Saves(m))), '|')
         == ["", DebugOption(m.strengthSave), DebugOption(m.dexteritySave), DebugOption(m.constitutionSave),
                 DebugOption(m.intelligenceSave), DebugOption(m.wisdomSave), DebugOption(m.charismaSave), ""]
  {
    var xs := Saves(m);
    var sv := DebugCells(xs);
    DebugCellsFree(xs, '|');
    RowCells(sv);
    SixCells(sv, "", DebugOption(xs[0]), DebugOption(xs[1]), DebugOption(xs[2]),
             DebugOption(xs[3]), DebugOption(xs[4]), DebugOption(xs[5]));
  }

  /** Where each piece of page-shaped lines sits. */
  lemma PageSlices<T>(ls: seq<T>, s: seq<T>, sl: seq<T>, n: nat, x: T, y: T, al: seq<T>, z: T)
    requires |s| == 18 && n == |sl| && ls == s + (sl + [x, y] + al + [z, z])
    ensures |ls| == 22 + n + |al|
    ensures ls[..18] == s && ls[18..18 + n] == sl
    ensures ls[18 + n] == x && ls[19 + n] == y
    ensures ls[20 + n..|ls| - 1] == al + [z] && ls[|ls| - 1] == z
  {
  }

  /** The actions section's lines join back to the concatenated renderings. */
  lemma ActionLinesText(acts: seq<Action>)
    requires forall k :: 0 <= k < |acts| ==> Readable(acts[k])
    ensures Join(ActionLines(Named(acts)) + [""], "\n") == ActionsText(acts)
  {
    SplitActionsText(acts);
    JoinSplit(ActionsText(acts), '\n');
    assert ['\n'] == "\n";
  }

  /**
   * The lines of the page of a printable creature: the eighteen template
   * lines, then the spells one per line (a single empty line when there are
   * none), an empty line, the Actions heading, the lines that join to the
   * concatenated renderings of the actions, and the empty piece after the
   * closing newline.
   */
  lemma ToMdFieldOrder(m: Monster, ls: seq<string>, k: nat)
    requires Printable(m)
    requires ls == Split(ToMd(m), '\n') && k == (if |m.spellList| == 0 then 1 else |m.spellList|)
    ensures |ls| == 22 + k + 3 * |Named(m.actions)|
    ensures ls[..18] == StatLines(PageOf(m).identity, PageOf(m).abilities, PageOf(m).traits)
    ensures |m.spellList| == 0 ==> ls[18] == ""
    ensures |m.spellList| > 0 ==> ls[18..18 + k] == m.spellList
    ensures ls[18 + k] == "" && ls[19 + k] == "**Actions:**"
    ensures Join(ls[20 + k..|ls| - 1], "\n") == ActionsText(m.actions)
    ensures ls[|ls| - 1] == ""
  {
    var p := ShownPage(m);
    ToMdShown(m);
    NamedReadable(m.actions);
    assert Legible(p);
    PageLines(p);
    var s, sl, al := StatLines(p.identity, p.abilities, p.traits), SpellLines(m.spellList), ActionLines(Named(m.actions));
    assert |sl| == k;
    PageSlices(ls, s, sl, k, "", ACTIONS_HEADING, al, "");
    ActionLinesText(m.actions);
    if |m.spellList| == 0 {
      assert ls[18] == ls[18..18 + k][0];
    }
  }
}
