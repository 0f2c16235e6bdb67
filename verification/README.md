# fiender, rendering core, in Dafny

fiender is a client of the open5e API. It has record types for creatures (`Monster`) and spells (`Spell`), each with a `to_md` method that renders one record as a Markdown page. Its program entry point only walks the paged spell listing and prints a page counter; it does not call `to_md`.
This project models the record-level logic:

- **Actions** (`actions.dfy`): a creature's action-like entry (`Action`) and its `Display` rendering.
  An empty name renders as nothing. Otherwise the entry renders as:
  - a numbered bold heading;
  - the description;
  - a line with the optional combat numbers, in a fixed order with fixed separators.

  A reader recovers entries from rendered text.
- **ActionDecode** (`action_decode.dfy`, `json.dfy`): the `deserialize_with` hook of the creature's action-like fields.
  - A bare JSON string becomes one default action named by that string.
  - An array is decoded element by element through the derived `Deserialize` of `Action`, in object form or positional form.
  - Every other JSON shape is rejected.

  The derived `Serialize` is modelled as the decoder's inverse.
- **Decimal** (`decimal.dfy`): how Rust writes an `isize` with `{}` and an `Option<isize>` with `{:?}`.
  Each writer has a strict parser as its partner.
- **Monsters** (`monsters.dfy`): `Monster::to_md`, the creature page. Its sections are:
  - the identity lines;
  - the six-column table of scores and saves;
  - the trait lines;
  - the spell list, joined by newlines;
  - the Actions section, which concatenates the renderings of `actions` in order.

  `Monster` is reduced to the fields the template reads, plus `reactions`, `legendary_actions` and `special_abilities`.
  The record decodes those three lists but the page never shows them.
  A page reader (`ParseMonsterPage`) is the renderer's partner.
- **Spells** (`spells.dfy`): `Spell::to_md`, the spell page of ten fields, with its reader `ParsePage`.
- **Text** and **Wrappers** are shared helpers:
  - Rust's `join` and `split` on strings, as `Join` and `Split`;
  - `Option` and `Result`.

Every renderer is a pure function from the record to a string. Each one is paired with a reader. Lemmas show:
- the reader gives back exactly the rendered fields (round trip);
- the reader accepts nothing else (soundness);
- on legible records, two records render the same page exactly when their shown fields agree.

Three behaviours of the code are easy to miss, and the model keeps them:
- `to_md` renders only `actions`. `reactions`, `legendary_actions` and `special_abilities` are decoded but never shown (src/open5e/monster.rs:233-239).
- An action's combat-number line is written, newline-terminated, even when all three numbers are absent (src/open5e/monster.rs:71-83). Such an action ends in an empty line (`Actions.RenderWithoutCombat`).
- Missing saves and perception are written with `{:?}`, as `None` or `Some(n)` (src/open5e/monster.rs:198-201).

## Model

| member | source | states |
|---|---|---|
| Decimal.IntToString | src/open5e/monster.rs:213-221 | The `{}` text of an integer is non-empty. It starts with a minus sign exactly when the number is negative. Every other character is a digit. |
| Decimal.ParseIntIff | src/open5e/monster.rs:213-221 | The parser reads `n` from a text exactly when the text is the `{}` form of `n`. So the writer is injective and the parser accepts nothing else. |
| Decimal.ParseIntOfIntToString | src/open5e/monster.rs:213-221 | Reading back the decimal text of any integer gives that integer. |
| Decimal.NatToStringOfDigitsValue | src/open5e/monster.rs:213-221 | Every digit string without a superfluous leading zero is the decimal text of the value it denotes. |
| Decimal.DebugOption | src/open5e/monster.rs:222-229 | `{:?}` writes `None` for a missing value, and for a present value a text that starts with `Some(` and ends with `)`. |
| Decimal.ParseDebugOptionIff | src/open5e/monster.rs:222-229 | The `{:?}` parser reads an option from a text exactly when the text is that option's `{:?}` form. |
| Actions.Render | src/open5e/monster.rs:67-88 | An action renders as the empty string exactly when its name is empty. |
| Actions.AttackSegment | src/open5e/monster.rs:74-76 | The attack-bonus segment is empty exactly when the bonus is absent. When present, it ends in two spaces. |
| Actions.DiceSegment | src/open5e/monster.rs:77-79 | The damage-dice segment is empty exactly when the dice are absent. When present, it ends in two spaces. |
| Actions.BonusSegment | src/open5e/monster.rs:80-82 | The damage-bonus segment is empty exactly when the bonus is absent. When present, it ends in a digit, with no trailing spaces. |
| Actions.RenderFrame | src/open5e/monster.rs:70-83 | A named action's rendering starts with `1. **name**`, a newline, the description and a newline, and ends with a newline. |
| Actions.RenderLines | src/open5e/monster.rs:70-83 | A named action renders as three lines, each ended by a newline: heading, description, combat line. |
| Actions.RenderWithoutCombat | src/open5e/monster.rs:74-83 | With no combat numbers, the rendering is the heading line, the description and two newlines. |
| Actions.CombatLineStarred | src/open5e/monster.rs:74-82 | The combat line is its present segments' labels and values in the order attack bonus, damage dice, damage bonus. Each label and value is introduced by a `*`. |
| Actions.ParseCombatLineIff | src/open5e/monster.rs:74-82 | The combat-line reader returns a set of numbers exactly when the line is their combat line. This needs dice free of `*`. |
| Actions.ParseActionIff | src/open5e/monster.rs:67-88 | For a named, readable action, the reader returns that action from a text exactly when the text is its rendering. |
| Actions.ActionsTextConcat | src/open5e/monster.rs:233-239 | Rendering a list of actions concatenates the renderings of its parts, in order. |
| Actions.ActionsTextNamed | src/open5e/monster.rs:233-239 | Dropping unnamed actions does not change the Actions section. |
| Actions.ActionsTextEmpty | src/open5e/monster.rs:233-239 | The Actions section is empty exactly when every action's name is empty. |
| Actions.SplitActionsText | src/open5e/monster.rs:233-239 | The Actions section's lines are the three lines of each named action, in order, then the empty piece after the last newline. |
| Actions.ParseActionsOf | src/open5e/monster.rs:233-239 | Reading the Actions section of readable actions gives back the named actions in order. |
| Actions.ParseActionsSound | src/open5e/monster.rs:233-239 | Any text the section reader accepts is exactly the concatenated rendering of the named actions it returns. |
| ActionDecode.DecodeString | src/open5e/monster.rs:60-61 | A `String` field decodes exactly from a JSON string. Any other value is an invalid-type error. |
| ActionDecode.DecodeIsize | src/open5e/monster.rs:62-64 | An `isize` decodes exactly from a JSON integer in the 64-bit range, and the result is that integer. |
| ActionDecode.DecodeIsizeLiteral | src/open5e/monster.rs:62-64 | An integer literal decodes as an `isize` exactly when it is not `-0` and its value fits, and then to that value. A `u64` above `isize::MAX` is out of range. `-0` and literals beyond the `i64`/`u64` range reach the field as floats, and are the wrong type. |
| ActionDecode.NegativeZeroRejected | src/open5e/monster.rs:62 | An action whose `attack_bonus` is `-0` does not decode: the value is a float, not an integer. |
| ActionDecode.DecodeOptIsize | src/open5e/monster.rs:62-64 | An `Option<isize>` field is `None` exactly for JSON null. It decodes exactly from null or a JSON integer in the `isize` range, and a present value is that integer. |
| ActionDecode.DecodeOptString | src/open5e/monster.rs:63 | An `Option<String>` field is `None` exactly for JSON null. It decodes exactly from null or a string, and a present value is that string. |
| ActionDecode.DecodeMember | src/open5e/monster.rs:58-65 | An object member whose key is not a field of `Action` leaves the fields read so far unchanged. |
| ActionDecode.Finish | src/open5e/monster.rs:58-65 | An object yields an action exactly when both `name` and `desc` were present. A missing `name` is reported before a missing `desc`. The action carries the `name` and `desc` read. Each `Option` field whose key never appeared is `None`; each that appeared carries its decoded value. |
| ActionDecode.DecodeObject | src/open5e/monster.rs:58-65 | An object with well-typed members that names no field twice decodes, whatever the order of its members. Without `name` it fails with a missing-field error for `name`; with `name` but no `desc` it fails for `desc`. Otherwise it decodes to the action whose `name` and `desc` are those members' strings. Each `Option` field is its member's value, or `None` when the key is absent or `null`. |
| ActionDecode.AttackOnlyObject | src/open5e/monster.rs:58-65 | `{"name":"Claw","desc":"Melee attack.","attack_bonus":5}` decodes to an attack bonus of 5 with no damage dice and no damage bonus. |
| ActionDecode.FindMember | src/open5e/monster.rs:58-65 | In an object that names no field twice, looking up a field gives a value exactly when the object holds that field with that value. |
| ActionDecode.DecodeObjectReordered | src/open5e/monster.rs:58-65 | Member order does not matter: two objects that name no field twice and hold the same well-typed members decode to the same result. |
| ActionDecode.DecodeAction | src/open5e/monster.rs:58-65 | An action decodes only from an object or an array. Every other shape is an invalid-type error. |
| ActionDecode.DecodeActionSeq | src/open5e/monster.rs:170-175 | A sequence decodes exactly when every element decodes. The result has one action per element, in order. A failure carries the error of the first failing element. |
| ActionDecode.DecodeActionsField | src/open5e/monster.rs:143-183 | A string becomes one default action named by it, with an empty description. An array succeeds exactly when every element decodes; the result holds, in order, the action each element decodes to. A failing array reports the error of its first failing element. Every other shape fails with the visitor's `expecting` text. |
| ActionDecode.DecodeEncodeAction | src/open5e/monster.rs:58-65 | Decoding the derived object encoding of an action with in-range numbers gives back that action. |
| ActionDecode.DecodeEncodeActionTuple | src/open5e/monster.rs:58-65 | Decoding the positional five-element array of an action gives back that action. |
| ActionDecode.DecodeActionTupleLength | src/open5e/monster.rs:58-65 | A positional array with fewer or more than five elements does not decode. |
| ActionDecode.DecodeEncodeActions | src/open5e/monster.rs:170-175 | An array of encoded in-range actions decodes to exactly those actions. |
| ActionDecode.DecodedInRange | src/open5e/monster.rs:62-64 | Every number of every decoded action lies in the `isize` range. |
| ActionDecode.UnknownMemberIgnored | src/open5e/monster.rs:58-65 | Inserting a member with an unknown key into an object does not change its decoding. |
| ActionDecode.DuplicateFieldRejected | src/open5e/monster.rs:58-65 | An object that names a field of `Action` twice does not decode. |
| ActionDecode.DecodedObjectWellFormed | src/open5e/monster.rs:58-65 | The converse of `DecodeObject`: an object that decodes names no field twice and gives every field a value of its type. So a `name` that is not a string, or an `attack_bonus` that is not null or an `isize`, makes the whole object fail. |
| ActionDecode.NameRequired | src/open5e/monster.rs:58-65 | An object without a `name` member does not decode. |
| ActionDecode.DecodedStringRender | src/open5e/monster.rs:159-168 | The action made from a non-empty bare string renders as its heading, an empty description line and an empty combat line. |
| ActionDecode.EmptyStringRendersNothing | src/open5e/monster.rs:159-168 | A bare empty string decodes to an action that contributes nothing to the Actions section. |
| Monsters.NumberCells | src/open5e/monster.rs:216-221 | The scores row has one cell per score, each the score's `{}` text, in order. |
| Monsters.DebugCells | src/open5e/monster.rs:222-227 | The saves row has one cell per save, each the save's `{:?}` text, in order. |
| Monsters.StatLinesShow | src/open5e/monster.rs:187-205 | The eighteen template lines in order: the leading empty line, then name (after `###Name:` and two spaces), race, armor class, hit points and hit dice. Then an empty line, the table header, the alignment row, the scores row, the saves row and the rule. Then condition immunities, passive perception in `{:?}` form, languages and challenge. Then an empty line and `**Spells:**`. |
| Monsters.ScoresRowShow | src/open5e/monster.rs:216-221 | The scores row splits at its bars into an empty piece, then strength, dexterity, constitution, intelligence, wisdom and charisma in `{}` form, then an empty piece. |
| Monsters.SavesRowShow | src/open5e/monster.rs:222-227 | The saves row splits at its bars into an empty piece, then the six saves in `{:?}` form in the same order, then an empty piece. |
| Monsters.ToMdFieldOrder | src/open5e/monster.rs:187-239 | The page's lines are the eighteen template lines, then each spell on its own line (one empty line when there are none). Then an empty line and `**Actions:**`. The lines after the heading join to the concatenated renderings of `actions`, and the page ends with a newline. |
| Monsters.ActionsAtEnd | src/open5e/monster.rs:233-239 | The page of a creature is its page without actions, less the final newline, then the renderings of its actions in order, then the final newline. |
| Monsters.ToMdShown | src/open5e/monster.rs:233-239 | The page depends on the actions only through the named ones. |
| Monsters.ToMdIgnoresUnshown | src/open5e/monster.rs:211-239 | Changing `reactions`, `legendary_actions` or `special_abilities` does not change the page. |
| Monsters.ToMdReadBack | src/open5e/monster.rs:185-242 | Reading the page of a printable creature gives back every shown field: identity, scores, saves, traits, spells, and the named actions in order. |
| Monsters.ToMdSameIff | src/open5e/monster.rs:185-242 | Two printable creatures have the same page exactly when they agree on every shown field and on their named actions. |
| Monsters.ParseMonsterPageIff | src/open5e/monster.rs:187-210 | The page reader returns a page's fields from a text exactly when the page is legible and the text is its rendering. |
| Monsters.ParseMonsterPageOf | src/open5e/monster.rs:187-210 | Reading a legible page gives back every field it shows. |
| Monsters.ParseMonsterPageSound | src/open5e/monster.rs:187-210 | Any text the page reader accepts is exactly the page of the fields it returns, and those fields are legible. |
| Monsters.PageLines | src/open5e/monster.rs:187-210 | A legible page splits into the template lines, the spell lines, the Actions heading pair, each action's three lines and the closing empty lines. |
| Monsters.ParseStatsIff | src/open5e/monster.rs:187-205 | The reader of the eighteen template lines returns identity, table and traits exactly when the lines are their rendering and the table has six columns. |
| Monsters.ParseIdentityIff | src/open5e/monster.rs:188-193 | The five identity lines are read back exactly as their rendering. |
| Monsters.ParseAbilitiesIff | src/open5e/monster.rs:195-198 | The four table lines are read back exactly as the rendering of six scores and six saves. |
| Monsters.ParseTraitsIff | src/open5e/monster.rs:200-203 | The four trait lines are read back exactly as their rendering, with perception in `{:?}` form. |
| Monsters.ParseRowOf | src/open5e/monster.rs:197-198 | A row of bar-free cells is read back as those cells. |
| Monsters.ParseRowSound | src/open5e/monster.rs:197-198 | A row the reader accepts is the row of the cells it returns. |
| Monsters.ParseNumberCellsIff | src/open5e/monster.rs:197 | Cells are read as numbers exactly when they are those numbers' `{}` texts. |
| Monsters.ParseDebugCellsIff | src/open5e/monster.rs:198 | Cells are read as options exactly when they are those options' `{:?}` texts. |
| Monsters.SplitSpellText | src/open5e/monster.rs:232 | The spell section of legible spells splits into the spells, one per line. An empty list gives a single empty line. |
| Monsters.ParseBodyOf | src/open5e/monster.rs:205-210 | The reader of the lines after the spell heading gives back the spells and the actions of a legible page. |
| Monsters.BodyFactsSound | src/open5e/monster.rs:205-210 | Lines the body reader accepts join to the spell text, an empty line, the Actions heading and the concatenated renderings of what it read. The spells it read are legible and the actions it read are readable. |
| Monsters.PageTextEnd | src/open5e/monster.rs:208-210 | The page is everything through the Actions heading, a newline, the Actions section and a final newline. |
| Spells.ToMdFieldOrder | src/open5e/spells.rs:52-76 | The page's lines, in order, are a leading empty line, then name, `*Level level*`, the rule, casting time followed by ` action`, range followed by ` feet`, components and duration. Then an empty line and the description's lines. Then an empty line, school, class and archetype. |
| Spells.ToMdStart | src/open5e/spells.rs:53-54 | Every spell page starts with a newline, `###Name: ` and the name, a newline, then `*Level `, the level, `*` and a newline. |
| Spells.ToMdIgnoresUnshown | src/open5e/spells.rs:25-47 | Two spells that agree on the ten shown fields have the same page. The other eleven fields of the record never reach it. |
| Spells.ToMdSameIff | src/open5e/spells.rs:49-79 | Two spells with single-line fields have the same page exactly when they agree on the ten shown fields. |
| Spells.ParsePageIff | src/open5e/spells.rs:52-76 | The spell page reader returns ten fields from a text exactly when those fields are single-line (the description excepted) and the text is their page. |
| Spells.ParsePageOf | src/open5e/spells.rs:52-76 | Reading the page of single-line fields gives back those fields. |
| Spells.ParsePageSound | src/open5e/spells.rs:52-76 | Any text the spell page reader accepts is the page of the fields it returns. |
| Spells.PageLines | src/open5e/spells.rs:52-66 | A spell page splits into the nine lines above the description, the description's lines and the five lines below. |

## Left out

- src/main.rs is not part of this model. Its live `main` fetches the spell listing page by page over HTTP and prints `Pages scanned: n` for each page. That is network and process plumbing: it calls no renderer and reads no arguments.
- src/md.rs is not part of this model. Pages are modelled as the plain strings `to_md` formats before wrapping them in `Markdown`.
- Turning a creature or spell name into an API slug: no code for it is among the core files.
- The `Speeds` and `Skills` structs, and the `Monster` fields the template never reads. These are slug, size, subtype, group, alignment, armor description, speed, skills, damage vulnerabilities, resistances and immunities, senses, legendary description, image and document fields. They only take part in decoding. `Spell` is modelled with all 21 of its fields, and `Spells.ToMdIgnoresUnshown` shows the eleven the page does not show make no difference.
- Decoding of whole `Monster` and `Spell` records. This is derived serde code with no hand-written logic. Only the action-list hook and the derived `Deserialize` of `Action` that it calls are modelled.
- The exact wording of serde's error messages. Errors are a datatype that records the kind of failure and the expected-type text.
- Floats are kept as their literal text (`Json.Fractional`), so no floating-point arithmetic is modelled. A float is a literal with a fraction or an exponent, or an integer literal serde_json turns into one (`Json.IntegerLiteral`). A float never decodes as an `isize`. An integer is always within the `i64`/`u64` range (`Json.SerdeInt`), as serde_json delivers it.
- `isize` is taken to be 64 bits wide. Rendering works on unbounded integers, and the range check sits in decoding, where serde performs it.
- src/open5e/monster.rs uses CRLF line endings, src/open5e/spells.rs plain LF. Rust reads a CRLF inside a string literal as a single newline, so both templates use `\n`.
- Monsters.ToMdReadBack: requires a printable creature: single-line text fields, spells that are non-empty single lines, readable actions. A multi-line field makes two different creatures render the same page, so no reader can recover the fields.
- Monsters.ToMdSameIff: requires printable creatures, for the same reason.
- Monsters.ToMdFieldOrder: requires a printable creature, so that each piece lands on the lines stated.
- Spells.ToMdSameIff: requires every shown field except the description to be a single line, since otherwise two different spells can render the same page.
- Spells.ToMdFieldOrder: requires the same single-line fields.
- Actions.ParseActionIff: requires a named, readable action; an unnamed action renders as nothing.
- ActionDecode.DecodeEncodeAction: requires the action's numbers to lie in the `isize` range, as the derived decoder rejects anything else.
