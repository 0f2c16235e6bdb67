/**
 * A spell as the open5e API describes it (`Spell` in src/open5e/spells.rs)
 * and its Markdown page (`Spell::to_md`), with a reader that recovers the
 * rendered fields from a page.
 */
module Spells {
  import opened Wrappers
  import opened Text

  /** Every field of the upstream record; `to_md` reads ten of them. */
  datatype Spell = Spell(
    slug: string,
    name: string,
    desc: string,
    higherLevel: string,
    page: string,
    range: string,
    components: string,
    material: string,
    ritual: string,
    duration: string,
    concentration: string,
    castingTime: string,
    level: string,
    levelInt: int,
    school: string,
    dndClass: string,
    archetype: string,
    circles: string,
    documentSlug: string,
    documentTitle: string,
    documentLicenseUrl: string)

  /** The ten fields a spell page shows, in the order the page shows them. */
  datatype SpellPage = SpellPage(
    name: string,
    level: string,
    castingTime: string,
    range: string,
    components: string,
    duration: string,
    desc: string,
    school: string,
    dndClass: string,
    archetype: string)

  function PageOf(s: Spell): SpellPage {
    SpellPage(s.name, s.level, s.castingTime, s.range, s.components, s.duration,
              s.desc, s.school, s.dndClass, s.archetype)
  }

  const NAME_PREFIX := "###Name: "
  const LEVEL_PREFIX := "*Level "
  const LEVEL_SUFFIX := "*"
  const RULE := "___"
  const CASTING_PREFIX := "- **Casting Time:** "
  const CASTING_SUFFIX := " action"
  const RANGE_PREFIX := "- **Range:** "
  const RANGE_SUFFIX := " feet"
  const COMPONENTS_PREFIX := "- **Components:** "
  const DURATION_PREFIX := "- **Duration:** "
  const SCHOOL_PREFIX := "- **School:** "
  const CLASS_PREFIX := "- **Class:** "
  const ARCHETYPE_PREFIX := "- **Archetype:** "

  /** The lines of the template above the description: a leading empty line through the empty line after the duration. */
  function HeadLines(p: SpellPage): (r: seq<string>)
    ensures |r| == 9
  {
    [ "",
      NAME_PREFIX + p.name,
      LEVEL_PREFIX + p.level + LEVEL_SUFFIX,
      RULE,
      CASTING_PREFIX + p.castingTime + CASTING_SUFFIX,
      RANGE_PREFIX + p.range + RANGE_SUFFIX,
      COMPONENTS_PREFIX + p.components,
      DURATION_PREFIX + p.duration,
      "" ]
  }

  /** The lines of the template below the description, ending with the empty piece after the final newline. */
  function TailLines(p: SpellPage): (r: seq<string>)
    ensures |r| == 5
  {
    [ "",
      SCHOOL_PREFIX + p.school,
      CLASS_PREFIX + p.dndClass,
      ARCHETYPE_PREFIX + p.archetype,
      "" ]
  }

  /** The page text: the template's lines joined by newlines, the description in the middle. */
  function PageText(p: SpellPage): string {
    Join(HeadLines(p) + [p.desc] + TailLines(p), "\n")
  }

  /** `Spell::to_md`: the page of the ten rendered fields. */
  function ToMd(s: Spell): string {
    PageText(PageOf(s))
  }

  // ---------------------------------------------------------------------
  // Reading a page back.
  // ---------------------------------------------------------------------

  /** No shown field except the description contains a line break. */
  predicate SingleLineFields(p: SpellPage) {
    && '\n' !in p.name && '\n' !in p.level && '\n' !in p.castingTime
    && '\n' !in p.range && '\n' !in p.components && '\n' !in p.duration
    && '\n' !in p.school && '\n' !in p.dndClass && '\n' !in p.archetype
  }

  /** The fields of the nine lines above and the five lines below the description. */
  function ParseFrame(h: seq<string>, desc: string, t: seq<string>): Option<SpellPage>
    requires |h| == 9 && |t| == 5
  {
    if h[0] != "" || h[3] != RULE || h[8] != "" || t[0] != "" || t[4] != "" then None
    else
      var name :- StripAffixes(h[1], NAME_PREFIX, "");
      var level :- StripAffixes(h[2], LEVEL_PREFIX, LEVEL_SUFFIX);
      var ct :- StripAffixes(h[4], CASTING_PREFIX, CASTING_SUFFIX);
      var range :- StripAffixes(h[5], RANGE_PREFIX, RANGE_SUFFIX);
      var comps :- StripAffixes(h[6], COMPONENTS_PREFIX, "");
      var dur :- StripAffixes(h[7], DURATION_PREFIX, "");
      var school :- StripAffixes(t[1], SCHOOL_PREFIX, "");
      var cls :- StripAffixes(t[2], CLASS_PREFIX, "");
      var arch :- StripAffixes(t[3], ARCHETYPE_PREFIX, "");
      Some(SpellPage(name, level, ct, range, comps, dur, desc, school, cls, arch))
  }

  /**
   * The fields a page shows, or None when the text is not a page. The
   * description may span lines: it is everything between the ninth line and
   * the last five.
   */
  function ParsePage(text: string): Option<SpellPage> {
    var ls := Split(text, '\n');
    if |ls| < 15 then None
    else ParseFrame(ls[..9], Join(ls[9..|ls| - 5], "\n"), ls[|ls| - 5..])
  }

  // ---------------------------------------------------------------------
  // Properties of the page.
  // ---------------------------------------------------------------------

  /** A template line built from newline-free pieces has no newline. */
  lemma AffixedFree(prefix: string, x: string, suffix: string)
    requires '\n' !in prefix && '\n' !in x && '\n' !in suffix
    ensures '\n' !in prefix + x + suffix
  {
  }

  lemma PrefixedFree(prefix: string, x: string)
    requires '\n' !in prefix && '\n' !in x
    ensures '\n' !in prefix + x
  {
  }

  /** No fixed text above the description contains a newline. */
  lemma HeadTemplateFree()
    ensures '\n' !in NAME_PREFIX && '\n' !in LEVEL_PREFIX && '\n' !in LEVEL_SUFFIX && '\n' !in RULE
    ensures '\n' !in CASTING_PREFIX && '\n' !in CASTING_SUFFIX
  {
  }

  lemma MiddleTemplateFree()
    ensures '\n' !in RANGE_PREFIX && '\n' !in RANGE_SUFFIX
    ensures '\n' !in COMPONENTS_PREFIX && '\n' !in DURATION_PREFIX
  {
  }

  /** No fixed text below the description contains a newline. */
  lemma TailTemplateFree()
    ensures '\n' !in SCHOOL_PREFIX && '\n' !in CLASS_PREFIX && '\n' !in ARCHETYPE_PREFIX
  {
  }

  lemma HeadLinesFree(p: SpellPage)
    requires SingleLineFields(p)
    ensures forall i :: 0 <= i < 9 ==> '\n' !in HeadLines(p)[i]
  {
    var h := HeadLines(p);
    HeadTemplateFree();
    MiddleTemplateFree();
    PrefixedFree(NAME_PREFIX, p.name);
    AffixedFree(LEVEL_PREFIX, p.level, LEVEL_SUFFIX);
    AffixedFree(CASTING_PREFIX, p.castingTime, CASTING_SUFFIX);
    AffixedFree(RANGE_PREFIX, p.range, RANGE_SUFFIX);
    PrefixedFree(COMPONENTS_PREFIX, p.components);
    PrefixedFree(DURATION_PREFIX, p.duration);
    assert h[0] == "" && h[8] == "";
  }

  lemma TailLinesFree(p: SpellPage)
    requires SingleLineFields(p)
    ensures forall i :: 0 <= i < 5 ==> '\n' !in TailLines(p)[i]
  {
    var t := TailLines(p);
    TailTemplateFree();
    PrefixedFree(SCHOOL_PREFIX, p.school);
    PrefixedFree(CLASS_PREFIX, p.dndClass);
    PrefixedFree(ARCHETYPE_PREFIX, p.archetype);
    assert t[0] == "" && t[4] == "";
  }

  /** The lines of a page: the nine template lines, the description's lines, the five template lines. */
  lemma PageLines(p: SpellPage)
    requires SingleLineFields(p)
    ensures Split(PageText(p), '\n') == HeadLines(p) + Split(p.desc, '\n') + TailLines(p)
  {
    HeadLinesFree(p);
    TailLinesFree(p);
    assert ['\n'] == "\n";
    SplitJoinMiddle(HeadLines(p), p.desc, TailLines(p), '\n');
  }

  /** The frame reader accepts the template lines of a page and returns its fields. */
  lemma ParseFrameOf(p: SpellPage)
    ensures ParseFrame(HeadLines(p), p.desc, TailLines(p)) == Some(p)
  {
    StripAffixesOf(NAME_PREFIX, p.name, "");
    StripAffixesOf(LEVEL_PREFIX, p.level, LEVEL_SUFFIX);
    StripAffixesOf(CASTING_PREFIX, p.castingTime, CASTING_SUFFIX);
    StripAffixesOf(RANGE_PREFIX, p.range, RANGE_SUFFIX);
    StripAffixesOf(COMPONENTS_PREFIX, p.components, "");
    StripAffixesOf(DURATION_PREFIX, p.duration, "");
    StripAffixesOf(SCHOOL_PREFIX, p.school, "");
    StripAffixesOf(CLASS_PREFIX, p.dndClass, "");
    StripAffixesOf(ARCHETYPE_PREFIX, p.archetype, "");
    assert NAME_PREFIX + p.name + "" == NAME_PREFIX + p.name;
    assert COMPONENTS_PREFIX + p.components + "" == COMPONENTS_PREFIX + p.components;
    assert DURATION_PREFIX + p.duration + "" == DURATION_PREFIX + p.duration;
    assert SCHOOL_PREFIX + p.school + "" == SCHOOL_PREFIX + p.school;
    assert CLASS_PREFIX + p.dndClass + "" == CLASS_PREFIX + p.dndClass;
    assert ARCHETYPE_PREFIX + p.archetype + "" == ARCHETYPE_PREFIX + p.archetype;
  }

  /** Reading a page gives back every field it shows, when only the description spans lines. */
  lemma ParsePageOf(p: SpellPage)
    requires SingleLineFields(p)
    ensures ParsePage(PageText(p)) == Some(p)
  {
    var h, sd, t := HeadLines(p), Split(p.desc, '\n'), TailLines(p);
    PageLines(p);
    var ls := h + sd + t;
    assert ls[..9] == h;
    assert ls[9..|ls| - 5] == sd;
    assert ls[|ls| - 5..] == t;
    JoinSplit(p.desc, '\n');
    assert ['\n'] == "\n";
    ParseFrameOf(p);
  }

  /** What a piece of a newline-free line holds is newline-free. */
  lemma InnerFree(prefix: string, x: string, suffix: string)
    requires '\n' !in prefix + x + suffix
    ensures '\n' !in x
  {
    assert forall i :: 0 <= i < |x| ==> x[i] == (prefix + x + suffix)[|prefix| + i];
  }

  /** Lines the frame reader accepts are the template lines of what it returns. */
  lemma ParseFrameSound(h: seq<string>, d: string, t: seq<string>, p: SpellPage)
    requires |h| == 9 && |t| == 5
    requires ParseFrame(h, d, t) == Some(p)
    ensures h == HeadLines(p) && t == TailLines(p) && d == p.desc
  {
    AppendEmpty(NAME_PREFIX + p.name, "");
    AppendEmpty(COMPONENTS_PREFIX + p.components, "");
    AppendEmpty(DURATION_PREFIX + p.duration, "");
    AppendEmpty(SCHOOL_PREFIX + p.school, "");
    AppendEmpty(CLASS_PREFIX + p.dndClass, "");
    AppendEmpty(ARCHETYPE_PREFIX + p.archetype, "");
    var hp, tp := HeadLines(p), TailLines(p);
    assert forall i :: 0 <= i < 9 ==> h[i] == hp[i];
    assert forall i :: 0 <= i < 5 ==> t[i] == tp[i];
  }

  /** The shown fields of a page that reads back are newline-free. */
  lemma FramedFieldsFree(p: SpellPage)
    requires forall i :: 0 <= i < 9 ==> '\n' !in HeadLines(p)[i]
    requires forall i :: 0 <= i < 5 ==> '\n' !in TailLines(p)[i]
    ensures SingleLineFields(p)
  {
    var h, t := HeadLines(p), TailLines(p);
    assert '\n' !in h[1] && '\n' !in h[2] && '\n' !in h[4] && '\n' !in h[5] && '\n' !in h[6] && '\n' !in h[7];
    assert '\n' !in t[1] && '\n' !in t[2] && '\n' !in t[3];
    AppendEmpty(h[1], ""); InnerFree(NAME_PREFIX, p.name, "");
    InnerFree(LEVEL_PREFIX, p.level, LEVEL_SUFFIX);
    InnerFree(CASTING_PREFIX, p.castingTime, CASTING_SUFFIX);
    InnerFree(RANGE_PREFIX, p.range, RANGE_SUFFIX);
    AppendEmpty(h[6], ""); InnerFree(COMPONENTS_PREFIX, p.components, "");
    AppendEmpty(h[7], ""); InnerFree(DURATION_PREFIX, p.duration, "");
    AppendEmpty(t[1], ""); InnerFree(SCHOOL_PREFIX, p.school, "");
    AppendEmpty(t[2], ""); InnerFree(CLASS_PREFIX, p.dndClass, "");
    AppendEmpty(t[3], ""); InnerFree(ARCHETYPE_PREFIX, p.archetype, "");
  }

  /** A text the page reader accepts is exactly the page of what it returns. */
  lemma ParsePageSound(text: string, p: SpellPage)
    requires ParsePage(text) == Some(p)
    ensures SingleLineFields(p) && PageText(p) == text
  {
    var ls := Split(text, '\n');
    var h, m, t := ls[..9], ls[9..|ls| - 5], ls[|ls| - 5..];
    ParseFrameSound(h, Join(m, "\n"), t, p);
    SplitPiecesFree(text, '\n');
    assert forall i :: 0 <= i < 9 ==> h[i] == ls[i];
    assert forall i :: 0 <= i < 5 ==> t[i] == ls[|ls| - 5 + i];
    FramedFieldsFree(p);
    assert ls == h + m + t;
    JoinMiddleParts(h, m, t, "\n");
    JoinSplit(text, '\n');
    assert ['\n'] == "\n";
  }

  /** The page reader accepts a text exactly when it is the page of fields whose only multi-line one is the description. */
  lemma ParsePageIff(text: string, p: SpellPage)
    ensures ParsePage(text) == Some(p) <==> SingleLineFields(p) && text == PageText(p)
  {
    if ParsePage(text) == Some(p) {
      ParsePageSound(text, p);
    }
    if SingleLineFields(p) && text == PageText(p) {
      ParsePageOf(p);
    }
  }

  // ---------------------------------------------------------------------
  // `Spell::to_md`.
  // ---------------------------------------------------------------------

  /**
   * Two spells whose shown fields are single-line render the same page
   * exactly when they agree on the ten shown fields: the other eleven fields
   * (`slug`, `higher_level`, `material`, `ritual`, `concentration`, ...)
   * never reach the page.
   */
  lemma ToMdSameIff(s1: Spell, s2: Spell)
    requires SingleLineFields(PageOf(s1)) && SingleLineFields(PageOf(s2))
    ensures ToMd(s1) == ToMd(s2) <==> PageOf(s1) == PageOf(s2)
  {
    ParsePageOf(PageOf(s1));
    ParsePageOf(PageOf(s2));
  }

  /**
   * Two spells that agree on the ten shown fields have the same page, whatever
   * their slug, higher-level text, page, material, ritual and concentration
   * flags, integer level, circles and document fields.
   */
  lemma ToMdIgnoresUnshown(s1: Spell, s2: Spell)
    requires PageOf(s1) == PageOf(s2)
    ensures ToMd(s1) == ToMd(s2)
  {
  }

  /**
   * The lines of a spell page in order: name, level, a rule, casting time
   * (followed by " action"), range (followed by " feet"), components,
   * duration, the description, school, class and archetype.
   */
  lemma ToMdFieldOrder(s: Spell)
    requires SingleLineFields(PageOf(s))
    ensures var ls := Split(ToMd(s), '\n');
      && |ls| >= 15
      && ls[0] == ""
      && ls[1] == "###Name: " + s.name
      && ls[2] == "*Level " + s.level + "*"
      && ls[3] == "___"
      && ls[4] == "- **Casting Time:** " + s.castingTime + " action"
      && ls[5] == "- **Range:** " + s.range + " feet"
      && ls[6] == "- **Components:** " + s.components
      && ls[7] == "- **Duration:** " + s.duration
      && ls[8] == ""
      && Join(ls[9..|ls| - 5], "\n") == s.desc
      && ls[|ls| - 5] == ""
      && ls[|ls| - 4] == "- **School:** " + s.school
      && ls[|ls| - 3] == "- **Class:** " + s.dndClass
      && ls[|ls| - 2] == "- **Archetype:** " + s.archetype
      && ls[|ls| - 1] == ""
  {
    var p := PageOf(s);
    PageLines(p);
    var ls := Split(ToMd(s), '\n');
    var h, sd, t := HeadLines(p), Split(p.desc, '\n'), TailLines(p);
    assert ls[9..|ls| - 5] == sd;
    assert forall i :: 0 <= i < 5 ==> ls[|ls| - 5 + i] == t[i];
    JoinSplit(p.desc, '\n');
    assert ['\n'] == "\n";
  }

  /**
   * Whatever the fields hold, a spell page starts with an empty line, the
   * name line, and the level wrapped in asterisks on the line after it.
   */
  lemma ToMdStart(s: Spell)
    ensures "\n" + (NAME_PREFIX + s.name + "\n") + (LEVEL_PREFIX + s.level + LEVEL_SUFFIX + "\n") <= ToMd(s)
  {
    var p := PageOf(s);
    var h, t := HeadLines(p), TailLines(p);
    var b, a := NAME_PREFIX + s.name + "\n", LEVEL_PREFIX + s.level + LEVEL_SUFFIX + "\n";
    var j3 := Join(h[3..], "\n");
    assert h[1..][1..] == h[2..] && h[2..][1..] == h[3..];
    JoinUnfold(h[2..], "\n");
    JoinUnfold(h[1..], "\n");
    JoinUnfold(h, "\n");
    assert Join(h, "\n") == ("" + "\n") + (b + (a + j3));
    EmptyAppend("", "\n");
    SeqAssoc(b, a, j3);
    SeqAssoc("\n", b + a, j3);
    SeqAssoc("\n", b, a);
    var pre := "\n" + b + a;
    assert Join(h, "\n") == pre + j3;
    var r2 := p.desc + "\n" + Join(t, "\n");
    JoinMiddle(h, p.desc, t, "\n");
    SeqAssoc(pre + j3, "\n", r2);
    PrefixOfConcat2(pre, j3, "\n" + r2);
  }
}
