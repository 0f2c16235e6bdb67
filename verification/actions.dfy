/**
 * A creature's action-like entry (`Action` in src/open5e/monster.rs) and its
 * `Display` rendering, together with a reader that recovers entries from
 * rendered text.
 */
module Actions {
  import opened Wrappers
  import opened Text
  import opened Decimal

  /** One action, reaction, legendary action or special ability. */
  datatype Action = Action(
    name: string,
    desc: string,
    attackBonus: Option<int>,
    damageDice: Option<string>,
    damageBonus: Option<int>)

  /** `Action::default()`: empty strings and no combat numbers. */
  const DefaultAction: Action := Action("", "", None, None, None)

  /** The combat numbers of an action, in rendering order. */
  datatype Combat = Combat(attackBonus: Option<int>, damageDice: Option<string>, damageBonus: Option<int>)

  function CombatOf(a: Action): Combat {
    Combat(a.attackBonus, a.damageDice, a.damageBonus)
  }

  const ATTACK_LABEL := "Attack Bonus:"
  const DICE_LABEL := "Damage Dice:"
  const BONUS_LABEL := "Damage Bonus:"

  /** The attack-bonus segment: present only for `Some`, ending in two spaces. */
  function AttackSegment(ab: Option<int>): (r: string)
    ensures ab.None? <==> r == ""
    ensures ab.Some? ==> |r| >= 2 && r[|r| - 2..] == "  "
  {
    match ab
    case None => ""
    case Some(n) => "*Attack Bonus:* " + IntToString(n) + "  "
  }

  /** The damage-dice segment: present only for `Some`, ending in two spaces. */
  function DiceSegment(dd: Option<string>): (r: string)
    ensures dd.None? <==> r == ""
    ensures dd.Some? ==> |r| >= 2 && r[|r| - 2..] == "  "
  {
    match dd
    case None => ""
    case Some(d) => "*Damage Dice:* " + d + "  "
  }

  /** The damage-bonus segment: present only for `Some`, ending in a digit. */
  function BonusSegment(db: Option<int>): (r: string)
    ensures db.None? <==> r == ""
    ensures db.Some? ==> IsDigit(r[|r| - 1])
  {
    match db
    case None => ""
    case Some(n) => "*Damage Bonus:* " + IntToString(n)
  }

  /** The third line of a rendered action. */
  function CombatLine(c: Combat): string {
    AttackSegment(c.attackBonus) + DiceSegment(c.damageDice) + BonusSegment(c.damageBonus)
  }

  /** The heading line of a rendered action. */
  function Heading(name: string): string {
    "1. **" + name + "**"
  }

  /** `impl fmt::Display for Action`: an empty name is a sentinel that renders as nothing. */
  function Render(a: Action): (r: string)
    ensures r == "" <==> a.name == ""
  {
    if a.name != "" then
      var s := Heading(a.name) + "\n" + a.desc + "\n" + CombatLine(CombatOf(a));
      s + "\n"
    else
      ""
  }

  /** A rendered action is its heading, description and combat lines, each ended by a newline. */
  lemma RenderLines(a: Action)
    requires a.name != ""
    ensures Render(a) == Join([Heading(a.name), a.desc, CombatLine(CombatOf(a)), ""], "\n")
  {
    var cl := CombatLine(CombatOf(a));
    var ls := [Heading(a.name), a.desc, cl, ""];
    assert ls[1..][1..][1..] == [""];
    assert ls[1..][1..] == [cl, ""];
    assert ls[1..] == [a.desc, cl, ""];
    var h := Heading(a.name);
    assert Join([cl, ""], "\n") == cl + "\n";
    assert Join([a.desc, cl, ""], "\n") == a.desc + "\n" + (cl + "\n");
    assert Join(ls, "\n") == h + "\n" + (a.desc + "\n" + (cl + "\n"));
    assert h + "\n" + (a.desc + "\n" + (cl + "\n")) == h + "\n" + a.desc + "\n" + cl + "\n";
  }

  /**
   * A rendered action starts with its numbered bold heading and its
   * description, and ends with a newline.
   */
  lemma RenderFrame(a: Action)
    requires a.name != ""
    ensures var r := Render(a);
      && "1. **" + a.name + "**\n" + a.desc + "\n" <= r
      && r[|r| - 1] == '\n'
  {
    var p := "1. **" + a.name + "**\n" + a.desc + "\n";
    var cl := CombatLine(CombatOf(a));
    assert "**\n" == "**" + "\n";
    assert Heading(a.name) + "\n" == "1. **" + a.name + "**\n";
    assert Render(a) == p + (cl + "\n");
  }

  /** With no combat numbers, the combat line is empty. */
  lemma RenderWithoutCombat(a: Action)
    requires a.name != ""
    requires a.attackBonus.None? && a.damageDice.None? && a.damageBonus.None?
    ensures Render(a) == "1. **" + a.name + "**\n" + a.desc + "\n\n"
  {
  }

  // ---------------------------------------------------------------------
  // Reading rendered actions back.
  // ---------------------------------------------------------------------

  /** `"*" + p` for each piece: what a Join with a leading empty piece adds. */
  function Starred(ps: seq<string>): string
  {
    if |ps| == 0 then "" else "*" + ps[0] + Starred(ps[1..])
  }

  function AttackPieces(ab: Option<int>): seq<string> {
    match ab
    case None => []
    case Some(n) => [ATTACK_LABEL, " " + IntToString(n) + "  "]
  }

  function DicePieces(dd: Option<string>): seq<string> {
    match dd
    case None => []
    case Some(d) => [DICE_LABEL, " " + d + "  "]
  }

  function BonusPieces(db: Option<int>): seq<string> {
    match db
    case None => []
    case Some(n) => [BONUS_LABEL, " " + IntToString(n)]
  }

  /** The pieces between asterisks of a combat line. */
  function CombatPieces(c: Combat): seq<string>
  {
    AttackPieces(c.attackBonus) + DicePieces(c.damageDice) + BonusPieces(c.damageBonus)
  }

  lemma {:induction false} StarredConcat(p: seq<string>, q: seq<string>)
    ensures Starred(p + q) == Starred(p) + Starred(q)
    decreases |p|
  {
    if |p| == 0 {
      assert p + q == q;
    } else {
      assert (p + q)[1..] == p[1..] + q;
      StarredConcat(p[1..], q);
    }
  }

  lemma StarredPair(l: string, v: string)
    ensures Starred([l, v]) == "*" + l + "*" + v
  {
    assert [l, v][1..] == [v];
    assert [v][1..] == [];
    assert Starred([v]) == "*" + v + "";
    assert Starred([l, v]) == "*" + l + ("*" + v + "");
  }

  lemma AttackSegmentStarred(ab: Option<int>)
    ensures AttackSegment(ab) == Starred(AttackPieces(ab))
  {
    if ab.Some? {
      var t := " " + IntToString(ab.value) + "  ";
      StarredPair(ATTACK_LABEL, t);
      assert "*Attack Bonus:* " == "*" + ATTACK_LABEL + "*" + " ";
    }
  }

  lemma DiceSegmentStarred(dd: Option<string>)
    ensures DiceSegment(dd) == Starred(DicePieces(dd))
  {
    if dd.Some? {
      var t := " " + dd.value + "  ";
      StarredPair(DICE_LABEL, t);
      assert "*Damage Dice:* " == "*" + DICE_LABEL + "*" + " ";
    }
  }

  lemma BonusSegmentStarred(db: Option<int>)
    ensures BonusSegment(db) == Starred(BonusPieces(db))
  {
    if db.Some? {
      var t := " " + IntToString(db.value);
      StarredPair(BONUS_LABEL, t);
      assert "*Damage Bonus:* " == "*" + BONUS_LABEL + "*" + " ";
    }
  }

  /** The combat line is the asterisk-separated combat pieces. */
  lemma CombatLineStarred(c: Combat)
    ensures CombatLine(c) == Starred(CombatPieces(c))
  {
    var pa, pd, pb := AttackPieces(c.attackBonus), DicePieces(c.damageDice), BonusPieces(c.damageBonus);
    AttackSegmentStarred(c.attackBonus);
    DiceSegmentStarred(c.damageDice);
    BonusSegmentStarred(c.damageBonus);
    StarredConcat(pa + pd, pb);
    StarredConcat(pa, pd);
  }

  /** Asterisk-separated pieces free of asterisks split back into the pieces. */
  lemma {:induction false} SplitStarred(ps: seq<string>)
    requires forall i :: 0 <= i < |ps| ==> '*' !in ps[i]
    ensures Split(Starred(ps), '*') == [""] + ps
    decreases |ps|
  {
    if |ps| > 0 {
      var rest := Starred(ps[1..]);
      SplitStarred(ps[1..]);
      SplitFreeBefore(ps[0], rest, ps[1..], '*');
      SplitLeadingSeparator(ps[0] + rest, '*');
      assert Starred(ps) == ['*'] + (ps[0] + rest);
      assert [ps[0]] + ps[1..] == ps;
    }
  }

  lemma {:induction false} JoinStarred(ps: seq<string>)
    ensures Join([""] + ps, "*") == Starred(ps)
    decreases |ps|
  {
    if |ps| > 0 {
      JoinStarred(ps[1..]);
      var q := [""] + ps;
      assert q[1..] == ps;
      assert ([ps[0]] + ps[1..]) == ps;
      if |ps| == 1 {
        assert Starred(ps[1..]) == "";
      } else {
        assert Join(ps, "*") == ps[0] + "*" + Join(ps[1..], "*");
        assert Join([""] + ps[1..], "*") == "" + "*" + Join(ps[1..], "*");
      }
    }
  }

  /** Parses the damage-bonus piece pair, which must end the line. */
  function ParseBonusPieces(ps: seq<string>): Option<Option<int>>
  {
    if |ps| == 0 then Some(None)
    else if |ps| == 2 && ps[0] == BONUS_LABEL then
      match StripAffixes(ps[1], " ", "")
      case None => None
      case Some(t) =>
        match ParseInt(t)
        case None => None
        case Some(n) => Some(Some(n))
    else None
  }

  /** Parses an optional damage-dice piece pair, then the rest. */
  function ParseDicePieces(ps: seq<string>): Option<(Option<string>, Option<int>)>
  {
    if |ps| >= 2 && ps[0] == DICE_LABEL then
      match StripAffixes(ps[1], " ", "  ")
      case None => None
      case Some(d) =>
        match ParseBonusPieces(ps[2..])
        case None => None
        case Some(db) => Some((Some(d), db))
    else
      match ParseBonusPieces(ps)
      case None => None
      case Some(db) => Some((None, db))
  }

  /** Parses the pieces between asterisks of a combat line. */
  function ParseCombatPieces(ps: seq<string>): Option<Combat>
  {
    if |ps| >= 2 && ps[0] == ATTACK_LABEL then
      match StripAffixes(ps[1], " ", "  ")
      case None => None
      case Some(t) =>
        match ParseInt(t)
        case None => None
        case Some(n) =>
          match ParseDicePieces(ps[2..])
          case None => None
          case Some(rest) => Some(Combat(Some(n), rest.0, rest.1))
    else
      match ParseDicePieces(ps)
      case None => None
      case Some(rest) => Some(Combat(None, rest.0, rest.1))
  }

  lemma LabelsDiffer()
    ensures ATTACK_LABEL != DICE_LABEL && ATTACK_LABEL != BONUS_LABEL && DICE_LABEL != BONUS_LABEL
  {
    assert ATTACK_LABEL[0] == 'A' && BONUS_LABEL[0] == 'D';
    assert |DICE_LABEL| != |BONUS_LABEL| && |DICE_LABEL| != |ATTACK_LABEL|;
  }

  lemma ParseBonusPiecesIff(ps: seq<string>, db: Option<int>)
    ensures ParseBonusPieces(ps) == Some(db) <==> ps == BonusPieces(db)
  {
    if db.Some? && ps == BonusPieces(db) {
      StripAffixesOf(" ", IntToString(db.value), "");
      assert " " + IntToString(db.value) + "" == ps[1];
      ParseIntOfIntToString(db.value);
    }
    if ParseBonusPieces(ps) == Some(db) && |ps| > 0 {
      var t := StripAffixes(ps[1], " ", "").value;
      ParseIntIff(t, db.value);
      assert ps[1] == " " + t + "";
      assert " " + t + "" == " " + t;
      assert ps == [ps[0], ps[1]];
    }
  }

  lemma ParseDicePiecesIff(ps: seq<string>, dd: Option<string>, db: Option<int>)
    ensures ParseDicePieces(ps) == Some((dd, db)) <==> ps == DicePieces(dd) + BonusPieces(db)
  {
    LabelsDiffer();
    if dd.Some? {
      var pd := DicePieces(dd);
      if |ps| >= 2 && ps[..2] == pd {
        StripAffixesOf(" ", dd.value, "  ");
        ParseBonusPiecesIff(ps[2..], db);
        assert ps == pd + ps[2..];
      }
      if ParseDicePieces(ps) == Some((dd, db)) {
        ParseBonusPiecesIff(ps[2..], db);
        assert ps == [ps[0], ps[1]] + ps[2..];
      }
      if ps == pd + BonusPieces(db) {
        assert ps[..2] == pd && ps[2..] == BonusPieces(db);
      }
    } else {
      ParseBonusPiecesIff(ps, db);
      assert DicePieces(dd) + BonusPieces(db) == BonusPieces(db);
    }
  }

  /** The piece parser accepts exactly the pieces of some combat numbers. */
  lemma ParseCombatPiecesIff(ps: seq<string>, c: Combat)
    ensures ParseCombatPieces(ps) == Some(c) <==> ps == CombatPieces(c)
  {
    LabelsDiffer();
    var rest := DicePieces(c.damageDice) + BonusPieces(c.damageBonus);
    assert CombatPieces(c) == AttackPieces(c.attackBonus) + rest;
    if c.attackBonus.Some? {
      var n := c.attackBonus.value;
      var pa := AttackPieces(c.attackBonus);
      if |ps| >= 2 && ps[..2] == pa {
        StripAffixesOf(" ", IntToString(n), "  ");
        ParseIntOfIntToString(n);
        ParseDicePiecesIff(ps[2..], c.damageDice, c.damageBonus);
        assert ps == pa + ps[2..];
      }
      if ParseCombatPieces(ps) == Some(c) {
        var t := StripAffixes(ps[1], " ", "  ").value;
        ParseIntIff(t, n);
        ParseDicePiecesIff(ps[2..], c.damageDice, c.damageBonus);
        assert ps == [ps[0], ps[1]] + ps[2..];
      }
      if ps == pa + rest {
        assert ps[..2] == pa && ps[2..] == rest;
      }
    } else {
      ParseDicePiecesIff(ps, c.damageDice, c.damageBonus);
      assert AttackPieces(c.attackBonus) + rest == rest;
    }
  }

  /** The combat numbers a combat line shows, or None when it is not one. */
  function ParseCombatLine(line: string): Option<Combat>
  {
    var ps := Split(line, '*');
    if ps[0] == "" then ParseCombatPieces(ps[1..]) else None
  }

  /** Text free of newlines, and dice text free of asterisks: what a reader needs. */
  predicate Readable(a: Action) {
    && '\n' !in a.name
    && '\n' !in a.desc
    && (a.damageDice.Some? ==> '\n' !in a.damageDice.value && '*' !in a.damageDice.value)
  }

  /** Combat lines are read back exactly, and only they are accepted. */
  lemma ParseCombatLineIff(line: string, c: Combat)
    requires c.damageDice.Some? ==> '*' !in c.damageDice.value
    ensures ParseCombatLine(line) == Some(c) <==> line == CombatLine(c)
  {
    CombatLineStarred(c);
    PiecesFree(c, '*');
    if line == CombatLine(c) {
      SplitStarred(CombatPieces(c));
      assert ([""] + CombatPieces(c))[1..] == CombatPieces(c);
      ParseCombatPiecesIff(CombatPieces(c), c);
    }
    if ParseCombatLine(line) == Some(c) {
      var ps := Split(line, '*');
      ParseCombatPiecesIff(ps[1..], c);
      JoinSplit(line, '*');
      assert ps == [""] + ps[1..];
      JoinStarred(ps[1..]);
    }
  }

  lemma IntToStringFree(n: int, ch: char)
    requires !IsDigit(ch) && ch != '-'
    ensures ch !in IntToString(n)
  {
  }

  /** No piece of the list contains `ch`. */
  predicate PiecesWithout(ps: seq<string>, ch: char) {
    forall i :: 0 <= i < |ps| ==> ch !in ps[i]
  }

  lemma PiecesWithoutConcat(p: seq<string>, q: seq<string>, ch: char)
    requires PiecesWithout(p, ch) && PiecesWithout(q, ch)
    ensures PiecesWithout(p + q, ch)
  {
    assert forall i :: 0 <= i < |q| ==> (p + q)[|p| + i] == q[i];
  }

  lemma AttackPiecesFree(ab: Option<int>, ch: char)
    requires ch == '*' || ch == '\n'
    ensures PiecesWithout(AttackPieces(ab), ch)
  {
    if ab.Some? {
      IntToStringFree(ab.value, ch);
      assert ch !in ATTACK_LABEL;
      assert ch !in " " + IntToString(ab.value) + "  ";
    }
  }

  lemma DicePiecesFree(dd: Option<string>, ch: char)
    requires ch == '*' || ch == '\n'
    requires dd.Some? ==> ch !in dd.value
    ensures PiecesWithout(DicePieces(dd), ch)
  {
    if dd.Some? {
      assert ch !in DICE_LABEL;
      assert ch !in " " + dd.value + "  ";
    }
  }

  lemma BonusPiecesFree(db: Option<int>, ch: char)
    requires ch == '*' || ch == '\n'
    ensures PiecesWithout(BonusPieces(db), ch)
  {
    if db.Some? {
      IntToStringFree(db.value, ch);
      assert ch !in BONUS_LABEL;
      assert ch !in " " + IntToString(db.value);
    }
  }

  /** No combat piece contains a character absent from the dice text and from numbers. */
  lemma PiecesFree(c: Combat, ch: char)
    requires ch == '*' || ch == '\n'
    requires c.damageDice.Some? ==> ch !in c.damageDice.value
    ensures forall i :: 0 <= i < |CombatPieces(c)| ==> ch !in CombatPieces(c)[i]
  {
    var ap, dp, bp := AttackPieces(c.attackBonus), DicePieces(c.damageDice), BonusPieces(c.damageBonus);
    AttackPiecesFree(c.attackBonus, ch);
    DicePiecesFree(c.damageDice, ch);
    BonusPiecesFree(c.damageBonus, ch);
    PiecesWithoutConcat(ap, dp, ch);
    PiecesWithoutConcat(ap + dp, bp, ch);
    assert PiecesWithout(CombatPieces(c), ch);
  }

  /** Dice text read from a combat line never contains an asterisk. */
  lemma ParsedDiceFree(line: string, c: Combat)
    requires ParseCombatLine(line) == Some(c)
    ensures c.damageDice.Some? ==> '*' !in c.damageDice.value
  {
    var ps := Split(line, '*');
    SplitPiecesFree(line, '*');
    ParseCombatPiecesIff(ps[1..], c);
    if c.damageDice.Some? {
      var k := |AttackPieces(c.attackBonus)| + 1;
      assert CombatPieces(c)[k] == " " + c.damageDice.value + "  ";
      assert ps[k + 1] == CombatPieces(c)[k];
    }
  }

  /** The action three rendered lines show, or None when they are not one. */
  function ParseActionLines(heading: string, desc: string, combat: string): Option<Action>
  {
    match StripAffixes(heading, "1. **", "**")
    case None => None
    case Some(name) =>
      if name == "" then None
      else
        match ParseCombatLine(combat)
        case None => None
        case Some(c) => Some(Action(name, desc, c.attackBonus, c.damageDice, c.damageBonus))
  }

  /** The action a rendered text shows, or None when it is not one rendered action. */
  function ParseAction(text: string): Option<Action>
  {
    var ls := Split(text, '\n');
    if |ls| == 4 && ls[3] == "" then ParseActionLines(ls[0], ls[1], ls[2]) else None
  }

  lemma CombatLineFree(c: Combat)
    requires c.damageDice.Some? ==> '\n' !in c.damageDice.value
    ensures '\n' !in CombatLine(c)
  {
    var x, y, z := AttackSegment(c.attackBonus), DiceSegment(c.damageDice), BonusSegment(c.damageBonus);
    NumberSegmentFree("*Attack Bonus:* ", c.attackBonus, "  ");
    DiceSegmentFree(c.damageDice);
    NumberSegmentFree("*Damage Bonus:* ", c.damageBonus, "");
    assert '\n' !in x + y;
  }

  lemma NumberSegmentFree(head: string, n: Option<int>, tail: string)
    requires '\n' !in head && '\n' !in tail
    ensures n.Some? ==> '\n' !in head + IntToString(n.value) + tail
  {
    if n.Some? {
      IntToStringFree(n.value, '\n');
    }
  }

  lemma DiceSegmentFree(dd: Option<string>)
    requires dd.Some? ==> '\n' !in dd.value
    ensures '\n' !in DiceSegment(dd)
  {
  }

  lemma ParseActionLinesOf(a: Action)
    requires a.name != "" && Readable(a)
    ensures ParseActionLines(Heading(a.name), a.desc, CombatLine(CombatOf(a))) == Some(a)
  {
    StripAffixesOf("1. **", a.name, "**");
    ParseCombatLineIff(CombatLine(CombatOf(a)), CombatOf(a));
  }

  /** Lines accepted by the reader are exactly the lines of the action it returns. */
  lemma ParseActionLinesSound(heading: string, desc: string, combat: string, a: Action)
    requires ParseActionLines(heading, desc, combat) == Some(a)
    ensures a.name != "" && a.desc == desc
    ensures heading == Heading(a.name) && combat == CombatLine(CombatOf(a))
    ensures a.damageDice.Some? ==> '*' !in a.damageDice.value
  {
    var c :| ParseCombatLine(combat) == Some(c);
    ParsedDiceFree(combat, c);
    ParseCombatLineIff(combat, c);
  }

  /**
   * A readable action with a name is read back from its rendering, and the
   * reader accepts no other text for it.
   */
  lemma ParseActionIff(text: string, a: Action)
    requires a.name != "" && Readable(a)
    ensures ParseAction(text) == Some(a) <==> text == Render(a)
  {
    var ls := [Heading(a.name), a.desc, CombatLine(CombatOf(a)), ""];
    if text == Render(a) {
      SplitRender(a);
      ParseActionLinesOf(a);
    }
    if ParseAction(text) == Some(a) {
      var ps := Split(text, '\n');
      ParseActionLinesSound(ps[0], ps[1], ps[2], a);
      JoinSplit(text, '\n');
      assert ps == ls;
      RenderLines(a);
    }
  }

  /** A readable rendered action has exactly four lines, the last one empty. */
  lemma SplitRender(a: Action)
    requires a.name != "" && Readable(a)
    ensures Split(Render(a), '\n') == [Heading(a.name), a.desc, CombatLine(CombatOf(a)), ""]
  {
    var ls := [Heading(a.name), a.desc, CombatLine(CombatOf(a)), ""];
    RenderLines(a);
    CombatLineFree(CombatOf(a));
    assert '\n' !in Heading(a.name);
    SplitJoin(ls, '\n');
  }

  /** Appending a rendered action to text that ends a line appends its lines. */
  lemma SplitAppendRendered(x: string, lx: seq<string>, a: Action)
    requires Split(x, '\n') == lx + [""]
    requires a.name != "" && Readable(a)
    ensures Split(x + Render(a), '\n') == lx + [Heading(a.name), a.desc, CombatLine(CombatOf(a))] + [""]
  {
    SplitRender(a);
    SplitAfterSeparator(x, Render(a), lx, '\n');
  }

  // ---------------------------------------------------------------------
  // A sequence of actions, as the Actions section of a creature shows it.
  // ---------------------------------------------------------------------

  /** Every rendering in order, as the `for_each` that pushes each `to_string()`. */
  function ActionsText(acts: seq<Action>): string
  {
    if |acts| == 0 then "" else ActionsText(acts[..|acts| - 1]) + Render(acts[|acts| - 1])
  }

  /** The actions with a non-empty name, in order. */
  function Named(acts: seq<Action>): (r: seq<Action>)
    ensures |r| <= |acts|
    ensures forall i :: 0 <= i < |r| ==> r[i].name != ""
  {
    if |acts| == 0 then []
    else if acts[|acts| - 1].name == "" then Named(acts[..|acts| - 1])
    else Named(acts[..|acts| - 1]) + [acts[|acts| - 1]]
  }

  /** Three lines per action: heading, description and combat numbers. */
  function ActionLines(acts: seq<Action>): (r: seq<string>)
    ensures |r| == 3 * |acts|
  {
    if |acts| == 0 then []
    else
      var a := acts[|acts| - 1];
      ActionLines(acts[..|acts| - 1]) + [Heading(a.name), a.desc, CombatLine(CombatOf(a))]
  }

  /** Reads consecutive three-line groups as actions. */
  function ParseActionGroups(ls: seq<string>): Option<seq<Action>>
  {
    if |ls| == 0 then Some([])
    else if |ls| < 3 then None
    else
      var n := |ls|;
      match ParseActionGroups(ls[..n - 3])
      case None => None
      case Some(front) =>
        match ParseActionLines(ls[n - 3], ls[n - 2], ls[n - 1])
        case None => None
        case Some(a) => Some(front + [a])
  }

  /** The actions an Actions section shows, or None when it is not one. */
  function ParseActions(text: string): Option<seq<Action>>
  {
    ParseSectionLines(Split(text, '\n'))
  }

  /** The lines of a section: groups of three, then the empty piece after the final newline. */
  function ParseSectionLines(ls: seq<string>): Option<seq<Action>>
  {
    if |ls| > 0 && Last(ls) == "" then ParseActionGroups(ls[..|ls| - 1]) else None
  }

  /** Rendering one more action appends its text. */
  lemma ActionsTextAppend(front: seq<Action>, a: Action)
    ensures ActionsText(front + [a]) == ActionsText(front) + Render(a)
  {
    var acts := front + [a];
    assert acts[..|acts| - 1] == front && acts[|acts| - 1] == a;
  }

  lemma SnocAssoc(p: seq<Action>, q': seq<Action>, last: Action, q: seq<Action>)
    requires |q| > 0 && q' == q[..|q| - 1] && last == q[|q| - 1]
    ensures p + q == (p + q') + [last] && q == q' + [last]
  {
  }

  lemma {:induction false} ActionsTextConcat(p: seq<Action>, q: seq<Action>)
    ensures ActionsText(p + q) == ActionsText(p) + ActionsText(q)
    decreases |q|
  {
    if |q| == 0 {
      assert p + q == p;
    } else {
      var q', last := q[..|q| - 1], q[|q| - 1];
      ActionsTextConcat(p, q');
      SnocAssoc(p, q', last, q);
      ActionsTextAppend(p + q', last);
      ActionsTextAppend(q', last);
      SeqAssoc(ActionsText(p), ActionsText(q'), Render(last));
    }
  }

  /** Entries with an empty name contribute nothing to the section. */
  lemma {:induction false} ActionsTextNamed(acts: seq<Action>)
    ensures ActionsText(acts) == ActionsText(Named(acts))
    decreases |acts|
  {
    if |acts| > 0 {
      var front := acts[..|acts| - 1];
      ActionsTextNamed(front);
      var a := acts[|acts| - 1];
      if a.name != "" {
        var n := Named(front) + [a];
        assert n[..|n| - 1] == Named(front) && n[|n| - 1] == a;
        assert ActionsText(n) == ActionsText(Named(front)) + Render(a);
      } else {
        assert Render(a) == "";
        assert ActionsText(acts) == ActionsText(front) + "";
      }
    }
  }

  /** The section is empty exactly when every entry's name is empty. */
  lemma {:induction false} ActionsTextEmpty(acts: seq<Action>)
    ensures ActionsText(acts) == "" <==> forall i :: 0 <= i < |acts| ==> acts[i].name == ""
    decreases |acts|
  {
    if |acts| > 0 {
      var front, a := acts[..|acts| - 1], acts[|acts| - 1];
      ActionsTextEmpty(front);
      ActionsTextAppend(front, a);
      FrontLast(acts);
      ConcatEmpty(ActionsText(front), Render(a));
      UnnamedSnoc(front, a, acts);
    }
  }

  lemma UnnamedSnoc(front: seq<Action>, a: Action, acts: seq<Action>)
    requires acts == front + [a]
    ensures (forall i :: 0 <= i < |acts| ==> acts[i].name == "")
        <==> (forall i :: 0 <= i < |front| ==> front[i].name == "") && a.name == ""
  {
    assert acts[|acts| - 1] == a;
    assert forall i :: 0 <= i < |front| ==> front[i] == acts[i];
  }

  /** The lines of a section are the lines of its named entries, then an empty line. */
  lemma {:induction false} SplitActionsText(acts: seq<Action>)
    requires forall i :: 0 <= i < |acts| ==> Readable(acts[i])
    ensures Split(ActionsText(acts), '\n') == ActionLines(Named(acts)) + [""]
    decreases |acts|
  {
    if |acts| > 0 {
      var front, a := acts[..|acts| - 1], acts[|acts| - 1];
      assert forall i :: 0 <= i < |front| ==> front[i] == acts[i];
      SplitActionsText(front);
      FrontLast(acts);
      ActionsTextAppend(front, a);
      if a.name != "" {
        SplitAppendRendered(ActionsText(front), ActionLines(Named(front)), a);
        ActionLinesAppend(Named(front), a);
      } else {
        AppendEmpty(ActionsText(front), Render(a));
        assert Named(acts) == Named(front);
      }
    }
  }

  /** The lines of one more action follow the lines of the ones before. */
  lemma ActionLinesAppend(front: seq<Action>, a: Action)
    ensures ActionLines(front + [a]) == ActionLines(front) + [Heading(a.name), a.desc, CombatLine(CombatOf(a))]
  {
    var acts := front + [a];
    assert acts[..|acts| - 1] == front && acts[|acts| - 1] == a;
  }

  /** When every entry has a name, every entry is shown. */
  lemma {:induction false} NamedAllNamed(acts: seq<Action>)
    requires forall i :: 0 <= i < |acts| ==> acts[i].name != ""
    ensures Named(acts) == acts
    decreases |acts|
  {
    if |acts| > 0 {
      var front := acts[..|acts| - 1];
      assert forall i :: 0 <= i < |front| ==> front[i] == acts[i];
      NamedAllNamed(front);
      FrontLast(acts);
    }
  }

  /** Every named entry is one of the entries, so readable when they all are. */
  lemma {:induction false} NamedReadable(acts: seq<Action>)
    requires forall i :: 0 <= i < |acts| ==> Readable(acts[i])
    ensures forall i :: 0 <= i < |Named(acts)| ==> Readable(Named(acts)[i])
    decreases |acts|
  {
    if |acts| > 0 {
      var front := acts[..|acts| - 1];
      assert forall i :: 0 <= i < |front| ==> front[i] == acts[i];
      NamedReadable(front);
    }
  }

  lemma {:induction false} ParseActionGroupsOf(acts: seq<Action>)
    requires forall i :: 0 <= i < |acts| ==> acts[i].name != "" && Readable(acts[i])
    ensures ParseActionGroups(ActionLines(acts)) == Some(acts)
    decreases |acts|
  {
    if |acts| > 0 {
      var front := acts[..|acts| - 1];
      var a := acts[|acts| - 1];
      assert forall i :: 0 <= i < |front| ==> front[i] == acts[i];
      ParseActionGroupsOf(front);
      ParseActionLinesOf(a);
      var ls := ActionLines(front) + [Heading(a.name), a.desc, CombatLine(CombatOf(a))];
      assert ActionLines(acts) == ls;
      ParseActionGroupsSnoc(ActionLines(front), front, Heading(a.name), a.desc, CombatLine(CombatOf(a)), a);
      FrontLast(acts);
    }
  }

  /** One more group of lines adds one more action to what the groups before it give. */
  lemma ParseActionGroupsSnoc(ls: seq<string>, front: seq<Action>, h: string, d: string, cl: string, a: Action)
    requires ParseActionGroups(ls) == Some(front)
    requires ParseActionLines(h, d, cl) == Some(a)
    ensures ParseActionGroups(ls + [h, d, cl]) == Some(front + [a])
  {
    var all := ls + [h, d, cl];
    var n := |all|;
    assert all[..n - 3] == ls;
    assert all[n - 3] == h && all[n - 2] == d && all[n - 1] == cl;
  }

  /**
   * Reading an Actions section gives back its named entries, in order,
   * provided every entry is readable.
   */
  lemma ParseActionsOf(acts: seq<Action>)
    requires forall i :: 0 <= i < |acts| ==> Readable(acts[i])
    ensures ParseActions(ActionsText(acts)) == Some(Named(acts))
  {
    SplitActionsText(acts);
    NamedReadable(acts);
    ParseSectionLinesOf(Named(acts));
  }

  lemma ParseSectionLinesOf(n: seq<Action>)
    requires forall i :: 0 <= i < |n| ==> n[i].name != "" && Readable(n[i])
    ensures ParseSectionLines(ActionLines(n) + [""]) == Some(n)
  {
    ParseActionGroupsOf(n);
    SnocFrontLast(ActionLines(n), "");
  }

  lemma {:induction false} ParseActionGroupsSound(ls: seq<string>, acts: seq<Action>)
    requires ParseActionGroups(ls) == Some(acts)
    ensures forall i :: 0 <= i < |acts| ==> acts[i].name != ""
    ensures ActionsText(acts) == Join(ls + [""], "\n")
    decreases |ls|
  {
    if |ls| > 0 {
      var n := |ls|;
      var h, d, cl := ls[n - 3], ls[n - 2], ls[n - 1];
      var front, a := ParseActionGroupsLast(ls, acts);
      ParseActionGroupsSound(ls[..n - 3], front);
      ParseActionLinesSound(h, d, cl, a);
      RenderLines(a);
      ActionsTextSnoc(front, a, acts);
      JoinLastGroup(ls);
    }
  }

  /** Appending an action appends its rendering, and keeps every name non-empty when it is. */
  lemma ActionsTextSnoc(front: seq<Action>, a: Action, acts: seq<Action>)
    requires acts == front + [a]
    requires forall i :: 0 <= i < |front| ==> front[i].name != ""
    requires a.name != ""
    ensures forall i :: 0 <= i < |acts| ==> acts[i].name != ""
    ensures ActionsText(acts) == ActionsText(front) + Render(a)
  {
    SnocParts(front, a, acts);
  }

  /** Joining lines plus a closing empty line splits off the last three lines as a group. */
  lemma JoinLastGroup(ls: seq<string>)
    requires |ls| >= 3
    ensures Join(ls + [""], "\n")
         == Join(ls[..|ls| - 3] + [""], "\n") + Join([ls[|ls| - 3], ls[|ls| - 2], ls[|ls| - 1], ""], "\n")
  {
    LastThree(ls);
    JoinGroup(ls[..|ls| - 3], [ls[|ls| - 3], ls[|ls| - 2], ls[|ls| - 1], ""]);
  }

  /** A non-empty list of groups that reads as `acts`: its front groups and its last group. */
  lemma ParseActionGroupsLast(ls: seq<string>, acts: seq<Action>) returns (front: seq<Action>, a: Action)
    requires |ls| > 0 && ParseActionGroups(ls) == Some(acts)
    ensures |ls| >= 3 && acts == front + [a]
    ensures ParseActionGroups(ls[..|ls| - 3]) == Some(front)
    ensures ParseActionLines(ls[|ls| - 3], ls[|ls| - 2], ls[|ls| - 1]) == Some(a)
  {
    var n := |ls|;
    front := ParseActionGroups(ls[..n - 3]).value;
    a := ParseActionLines(ls[n - 3], ls[n - 2], ls[n - 1]).value;
  }

  lemma SnocParts(front: seq<Action>, a: Action, acts: seq<Action>)
    requires acts == front + [a]
    ensures |acts| > 0 && acts[..|acts| - 1] == front && acts[|acts| - 1] == a
    ensures forall i :: 0 <= i < |front| ==> acts[i] == front[i]
  {
  }

  /** Lines followed by a group that ends in an empty line join as the two joins laid end to end. */
  lemma JoinGroup(front: seq<string>, g: seq<string>)
    requires |g| >= 1
    ensures Join(front + g, "\n") == Join(front + [""], "\n") + Join(g, "\n")
  {
    if |front| == 0 {
      assert front + g == g;
      assert front + [""] == [""];
      EmptyAppend(Join([""], "\n"), Join(g, "\n"));
    } else {
      JoinConcat(front, g, "\n");
      JoinSnoc(front, "", "\n");
      AppendEmpty(Join(front, "\n") + "\n", "");
    }
  }

  /** Newline-free lines the reader accepts show a readable action. */
  lemma ParseActionLinesReadable(heading: string, desc: string, combat: string, a: Action)
    requires ParseActionLines(heading, desc, combat) == Some(a)
    requires '\n' !in heading && '\n' !in desc && '\n' !in combat
    ensures Readable(a)
  {
    ParseActionLinesSound(heading, desc, combat, a);
    assert heading == "1. **" + a.name + "**";
    if a.damageDice.Some? {
      assert combat == AttackSegment(a.attackBonus) + ("*Damage Dice:* " + a.damageDice.value + "  ")
                       + BonusSegment(a.damageBonus);
    }
  }

  /** Newline-free lines the group reader accepts show readable actions only. */
  lemma {:induction false} ParseActionGroupsReadable(ls: seq<string>, acts: seq<Action>)
    requires ParseActionGroups(ls) == Some(acts)
    requires forall j :: 0 <= j < |ls| ==> '\n' !in ls[j]
    ensures forall i :: 0 <= i < |acts| ==> Readable(acts[i])
    decreases |ls|
  {
    if |ls| > 0 {
      var n := |ls|;
      var front, a := ParseActionGroupsLast(ls, acts);
      assert forall j :: 0 <= j < n - 3 ==> ls[..n - 3][j] == ls[j];
      ParseActionGroupsReadable(ls[..n - 3], front);
      ParseActionLinesReadable(ls[n - 3], ls[n - 2], ls[n - 1], a);
      SnocParts(front, a, acts);
    }
  }

  /** Newline-free lines that read as a section show readable actions only. */
  lemma ParseSectionLinesReadable(ls: seq<string>, acts: seq<Action>)
    requires ParseSectionLines(ls) == Some(acts)
    requires forall j :: 0 <= j < |ls| ==> '\n' !in ls[j]
    ensures forall i :: 0 <= i < |acts| ==> Readable(acts[i])
  {
    var front := ls[..|ls| - 1];
    assert forall j :: 0 <= j < |front| ==> front[j] == ls[j];
    ParseActionGroupsReadable(front, acts);
  }

  /** A text the section reader accepts is exactly the rendering of what it returns. */
  lemma ParseActionsSound(text: string, acts: seq<Action>)
    requires ParseActions(text) == Some(acts)
    ensures forall i :: 0 <= i < |acts| ==> acts[i].name != ""
    ensures ActionsText(acts) == text
  {
    var ls := Split(text, '\n');
    ParseSectionLinesSound(ls, acts);
    JoinSplit(text, '\n');
    assert ['\n'] == "\n";
  }

  /** Lines that read as a section, followed by an empty last line, join to the section's text. */
  lemma ParseSectionLinesSound(ls: seq<string>, acts: seq<Action>)
    requires ParseSectionLines(ls) == Some(acts)
    ensures forall i :: 0 <= i < |acts| ==> acts[i].name != ""
    ensures ActionsText(acts) == Join(ls, "\n")
  {
    ParseActionGroupsSound(ls[..|ls| - 1], acts);
    FrontLast(ls);
  }
}
