/**
 * The `deserialize_with` hook of a creature's action-like fields
 * (`deserialize_string_into_vec_of_strings` and its visitor in
 * src/open5e/monster.rs): the upstream API sends either a bare string or an
 * array of actions, and both become a list of `Action`s.
 *
 * Each array element goes through the `Deserialize` impl that
 * `#[derive(Deserialize)]` writes for `Action`, which accepts a JSON object
 * or a positional JSON array; that derived behaviour is modelled here too,
 * because the array case of the visitor hands every element to it.
 */
module ActionDecode {
  import opened Wrappers
  import opened Json
  import opened Decimal
  import opened Actions

  /** What serde reports when a value does not decode. */
  datatype DecodeError =
    | InvalidType(unexpected: Shape, expected: string)
    | OutOfRange(n: int, expected: string)
    | MissingField(field: string)
    | DuplicateField(field: string)
    | InvalidLength(len: nat, expected: string)
    | TrailingElements

  /** What the visitor's `expecting` writes. */
  const FIELD_EXPECTING := "a string or a vector of strings"
  /** What the derived `Action` visitor expects. */
  const ACTION_EXPECTING := "struct Action"
  const TUPLE_EXPECTING := "struct Action with 5 elements"
  const STRING_EXPECTING := "a string"
  const ISIZE_EXPECTING := "isize"

  /** The field names of `Action`, in declaration order. */
  const NAME_KEY := "name"
  const DESC_KEY := "desc"
  const ATTACK_KEY := "attack_bonus"
  const DICE_KEY := "damage_dice"
  const BONUS_KEY := "damage_bonus"

  predicate IsFieldName(k: string) {
    k == NAME_KEY || k == DESC_KEY || k == ATTACK_KEY || k == DICE_KEY || k == BONUS_KEY
  }

  // ---------------------------------------------------------------------
  // Field values.
  // ---------------------------------------------------------------------

  /** A `String` field: only a JSON string decodes. */
  function DecodeString(v: Value): (r: Result<string, DecodeError>)
    ensures r.Success? <==> v.JString?
    ensures r.Failure? ==> r.error == InvalidType(ShapeOf(v), STRING_EXPECTING)
  {
    match v
    case JString(s) => Success(s)
    case _ => Failure(InvalidType(ShapeOf(v), STRING_EXPECTING))
  }

  /** An `isize` field: an integer literal within the 64-bit range. */
  function DecodeIsize(v: Value): (r: Result<int, DecodeError>)
    ensures r.Success? <==> v.JNumber? && v.n.Integer? && IsIsize(v.n.i)
    ensures r.Success? ==> r.value == v.n.i && IsIsize(r.value)
  {
    match v
    case JNumber(Integer(i)) =>
      if IsIsize(i) then Success(i) else Failure(OutOfRange(i, ISIZE_EXPECTING))
    case _ => Failure(InvalidType(ShapeOf(v), ISIZE_EXPECTING))
  }

  /** An `Option<isize>` field: `null` is `None`. */
  function DecodeOptIsize(v: Value): (r: Result<Option<int>, DecodeError>)
    ensures r == Success(None) <==> v.JNull?
    ensures r.Success? <==> v.JNull? || (v.JNumber? && v.n.Integer? && IsIsize(v.n.i))
    ensures r.Success? && !v.JNull? ==> r.value == Some(v.n.i)
    ensures r.Success? && r.value.Some? ==> IsIsize(r.value.value)
  {
    if v.JNull? then Success(None)
    else
      var n :- DecodeIsize(v);
      Success(Some(n))
  }

  /** An `Option<String>` field: `null` is `None`. */
  function DecodeOptString(v: Value): (r: Result<Option<string>, DecodeError>)
    ensures r == Success(None) <==> v.JNull?
    ensures r.Success? <==> v.JNull? || v.JString?
    ensures r.Success? && v.JString? ==> r.value == Some(v.s)
  {
    if v.JNull? then Success(None)
    else
      var s :- DecodeString(v);
      Success(Some(s))
  }

  // ---------------------------------------------------------------------
  // An `Action` from a JSON object.
  // ---------------------------------------------------------------------

  /** The fields seen so far while reading an object; `None` means not yet seen. */
  datatype Fields = Fields(
    name: Option<string>,
    desc: Option<string>,
    attackBonus: Option<Option<int>>,
    damageDice: Option<Option<string>>,
    damageBonus: Option<Option<int>>)

  const NoFields: Fields := Fields(None, None, None, None, None)

  /**
   * One key/value pair of the object: a known key seen twice is an error,
   * a known key decodes its value, an unknown key is skipped.
   */
  function DecodeMember(f: Fields, key: string, v: Value): (r: Result<Fields, DecodeError>)
    ensures !IsFieldName(key) ==> r == Success(f)
  {
    if key == NAME_KEY then
      if f.name.Some? then Failure(DuplicateField(NAME_KEY))
      else var s :- DecodeString(v); Success(f.(name := Some(s)))
    else if key == DESC_KEY then
      if f.desc.Some? then Failure(DuplicateField(DESC_KEY))
      else var s :- DecodeString(v); Success(f.(desc := Some(s)))
    else if key == ATTACK_KEY then
      if f.attackBonus.Some? then Failure(DuplicateField(ATTACK_KEY))
      else var n :- DecodeOptIsize(v); Success(f.(attackBonus := Some(n)))
    else if key == DICE_KEY then
      if f.damageDice.Some? then Failure(DuplicateField(DICE_KEY))
      else var d :- DecodeOptString(v); Success(f.(damageDice := Some(d)))
    else if key == BONUS_KEY then
      if f.damageBonus.Some? then Failure(DuplicateField(BONUS_KEY))
      else var n :- DecodeOptIsize(v); Success(f.(damageBonus := Some(n)))
    else
      Success(f)
  }

  /** The members of the object, in order, stopping at the first error. */
  function DecodeMembers(f: Fields, ms: seq<(string, Value)>): Result<Fields, DecodeError>
    decreases |ms|
  {
    if |ms| == 0 then Success(f)
    else
      var f' :- DecodeMember(f, ms[0].0, ms[0].1);
      DecodeMembers(f', ms[1..])
  }

  /** After the last member: `name` and `desc` are required, the `Option` fields default to `None`. */
  function Finish(f: Fields): (r: Result<Action, DecodeError>)
    ensures r.Success? <==> f.name.Some? && f.desc.Some?
    ensures f.name.None? ==> r == Failure(MissingField(NAME_KEY))
    ensures f.name.Some? && f.desc.None? ==> r == Failure(MissingField(DESC_KEY))
    ensures r.Success? ==> r.value.name == f.name.value && r.value.desc == f.desc.value
    ensures r.Success? && f.attackBonus.None? ==> r.value.attackBonus.None?
    ensures r.Success? && f.attackBonus.Some? ==> r.value.attackBonus == f.attackBonus.value
    ensures r.Success? && f.damageDice.None? ==> r.value.damageDice.None?
    ensures r.Success? && f.damageDice.Some? ==> r.value.damageDice == f.damageDice.value
    ensures r.Success? && f.damageBonus.None? ==> r.value.damageBonus.None?
    ensures r.Success? && f.damageBonus.Some? ==> r.value.damageBonus == f.damageBonus.value
  {
    if f.name.None? then Failure(MissingField(NAME_KEY))
    else if f.desc.None? then Failure(MissingField(DESC_KEY))
    else Success(Action(
      f.name.value, f.desc.value,
      f.attackBonus.GetOr(None), f.damageDice.GetOr(None), f.damageBonus.GetOr(None)))
  }

  // ---------------------------------------------------------------------
  // An `Action` from a positional JSON array.
  // ---------------------------------------------------------------------

  /** Element `i` of the array, or the length error serde reports when it is missing. */
  function Element(items: seq<Value>, i: nat): (r: Result<Value, DecodeError>)
    ensures r.Success? <==> i < |items|
    ensures r.Success? ==> r.value == items[i]
  {
    if i < |items| then Success(items[i]) else Failure(InvalidLength(i, TUPLE_EXPECTING))
  }

  /** The five fields in declaration order, each decoded before the next is looked at. */
  function DecodeActionTuple(items: seq<Value>): Result<Action, DecodeError>
  {
    var v0 :- Element(items, 0);
    var name :- DecodeString(v0);
    var v1 :- Element(items, 1);
    var desc :- DecodeString(v1);
    var v2 :- Element(items, 2);
    var ab :- DecodeOptIsize(v2);
    var v3 :- Element(items, 3);
    var dd :- DecodeOptString(v3);
    var v4 :- Element(items, 4);
    var db :- DecodeOptIsize(v4);
    if |items| > 5 then Failure(TrailingElements)
    else Success(Action(name, desc, ab, dd, db))
  }

  /** The derived `Deserialize` of one `Action`: an object or a positional array. */
  function DecodeAction(v: Value): (r: Result<Action, DecodeError>)
    ensures !(v.JObject? || v.JArray?) ==> r == Failure(InvalidType(ShapeOf(v), ACTION_EXPECTING))
  {
    match v
    case JObject(ms) =>
      var f :- DecodeMembers(NoFields, ms);
      Finish(f)
    case JArray(items) => DecodeActionTuple(items)
    case _ => Failure(InvalidType(ShapeOf(v), ACTION_EXPECTING))
  }

  // ---------------------------------------------------------------------
  // The visitor.
  // ---------------------------------------------------------------------

  /** `Vec<Action>` from a sequence: every element in order, the first error ends it. */
  function DecodeActionSeq(items: seq<Value>): (r: Result<seq<Action>, DecodeError>)
    ensures r.Success? <==> forall i :: 0 <= i < |items| ==> DecodeAction(items[i]).Success?
    ensures r.Success? ==> |r.value| == |items|
    ensures r.Success? ==> forall i :: 0 <= i < |items| ==> r.value[i] == DecodeAction(items[i]).value
    ensures r.Failure? ==>
      exists k :: (0 <= k < |items| && DecodeAction(items[k]) == Failure(r.error)
        && forall j :: 0 <= j < k ==> DecodeAction(items[j]).Success?)
    decreases |items|
  {
    if |items| == 0 then Success([])
    else
      var a :- DecodeAction(items[0]);
      var rest :- DecodeActionSeq(items[1..]);
      Success([a] + rest)
  }

  /**
   * `deserialize_string_into_vec_of_strings`: `deserialize_any` with the
   * string-or-sequence visitor. A string becomes one default action carrying
   * it as its name; a sequence decodes element-wise; every other shape is
   * rejected with the visitor's `expecting` text.
   */
  function DecodeActionsField(v: Value): (r: Result<seq<Action>, DecodeError>)
    ensures v.JString? ==> r == Success([Action(v.s, "", None, None, None)])
    ensures v.JArray? ==> (r.Success? <==> forall i :: 0 <= i < |v.items| ==> DecodeAction(v.items[i]).Success?)
    ensures v.JArray? && r.Success? ==> |r.value| == |v.items|
    ensures v.JArray? && r.Success? ==> forall i :: 0 <= i < |v.items| ==> r.value[i] == DecodeAction(v.items[i]).value
    ensures v.JArray? && r.Failure? ==>
      exists k :: (0 <= k < |v.items| && DecodeAction(v.items[k]) == Failure(r.error)
        && forall j :: 0 <= j < k ==> DecodeAction(v.items[j]).Success?)
    ensures !(v.JString? || v.JArray?) ==> r == Failure(InvalidType(ShapeOf(v), FIELD_EXPECTING))
  {
    match v
    case JString(s) => Success([DefaultAction.(name := s, desc := "")])
    case JArray(items) => DecodeActionSeq(items)
    case _ => Failure(InvalidType(ShapeOf(v), FIELD_EXPECTING))
  }

  // ---------------------------------------------------------------------
  // The derived `Serialize` of `Action`, the decoder's inverse.
  // ---------------------------------------------------------------------

  /** An `isize` always fits in an `i64`, so it is written as a JSON integer. */
  function EncodeOptIsize(o: Option<int>): Value
    requires o.Some? ==> IsIsize(o.value)
  {
    match o
    case None => JNull
    case Some(n) => JNumber(Integer(n))
  }

  function EncodeOptString(o: Option<string>): Value {
    match o
    case None => JNull
    case Some(s) => JString(s)
  }

  /** An object with the five fields in declaration order; `None` becomes `null`. */
  function EncodeAction(a: Action): Value
    requires InRange(a)
  {
    JObject([
      (NAME_KEY, JString(a.name)),
      (DESC_KEY, JString(a.desc)),
      (ATTACK_KEY, EncodeOptIsize(a.attackBonus)),
      (DICE_KEY, EncodeOptString(a.damageDice)),
      (BONUS_KEY, EncodeOptIsize(a.damageBonus))])
  }

  /** A list of actions as a JSON array of their encodings. */
  function EncodeActions(acts: seq<Action>): (r: seq<Value>)
    requires forall i :: 0 <= i < |acts| ==> InRange(acts[i])
    ensures |r| == |acts|
    ensures forall i :: 0 <= i < |acts| ==> r[i] == EncodeAction(acts[i])
  {
    if |acts| == 0 then [] else [EncodeAction(acts[0])] + EncodeActions(acts[1..])
  }

  /** The combat numbers fit in an `isize`, as every decoded action's do. */
  predicate InRange(a: Action) {
    && (a.attackBonus.Some? ==> IsIsize(a.attackBonus.value))
    && (a.damageBonus.Some? ==> IsIsize(a.damageBonus.value))
  }

  /** The same action as a positional array. */
  function EncodeActionTuple(a: Action): seq<Value>
    requires InRange(a)
  {
    [JString(a.name), JString(a.desc), EncodeOptIsize(a.attackBonus),
     EncodeOptString(a.damageDice), EncodeOptIsize(a.damageBonus)]
  }

  lemma DecodeEncodeOptIsize(o: Option<int>)
    requires o.Some? ==> IsIsize(o.value)
    ensures DecodeOptIsize(EncodeOptIsize(o)) == Success(o)
  {
  }

  /** Decoding an encoded action gives it back. */
  lemma DecodeEncodeAction(a: Action)
    requires InRange(a)
    ensures DecodeAction(EncodeAction(a)) == Success(a)
  {
    var ms := EncodeAction(a).members;
    DecodeEncodeOptIsize(a.attackBonus);
    DecodeEncodeOptIsize(a.damageBonus);
    var f1 := NoFields.(name := Some(a.name));
    var f2 := f1.(desc := Some(a.desc));
    var f3 := f2.(attackBonus := Some(a.attackBonus));
    var f4 := f3.(damageDice := Some(a.damageDice));
    var f5 := f4.(damageBonus := Some(a.damageBonus));
    assert DecodeMember(NoFields, ms[0].0, ms[0].1) == Success(f1);
    assert DecodeMember(f1, ms[1].0, ms[1].1) == Success(f2);
    assert DecodeMember(f2, ms[2].0, ms[2].1) == Success(f3);
    assert DecodeMember(f3, ms[3].0, ms[3].1) == Success(f4);
    assert DecodeMember(f4, ms[4].0, ms[4].1) == Success(f5);
    assert DecodeMembers(f5, ms[5..]) == Success(f5);
    assert DecodeMembers(f4, ms[4..]) == Success(f5);
    assert DecodeMembers(f3, ms[3..]) == Success(f5);
    assert DecodeMembers(f2, ms[2..]) == Success(f5);
    assert DecodeMembers(f1, ms[1..]) == Success(f5);
    assert DecodeMembers(NoFields, ms) == Success(f5);
  }

  /** The positional form decodes to the same action as the object form. */
  lemma DecodeEncodeActionTuple(a: Action)
    requires InRange(a)
    ensures DecodeAction(JArray(EncodeActionTuple(a))) == Success(a)
  {
    DecodeEncodeOptIsize(a.attackBonus);
    DecodeEncodeOptIsize(a.damageBonus);
  }

  /** A positional array decodes only when it has exactly five elements. */
  lemma DecodeActionTupleLength(items: seq<Value>)
    ensures |items| < 5 ==> DecodeAction(JArray(items)).Failure?
    ensures |items| > 5 ==> DecodeAction(JArray(items)).Failure?
  {
  }

  /** Decoding the array of encodings gives the list back. */
  lemma {:induction false} DecodeEncodeActions(acts: seq<Action>)
    requires forall i :: 0 <= i < |acts| ==> InRange(acts[i])
    ensures DecodeActionsField(JArray(EncodeActions(acts))) == Success(acts)
  {
    var items := EncodeActions(acts);
    forall i | 0 <= i < |items|
      ensures DecodeAction(items[i]) == Success(acts[i])
    {
      DecodeEncodeAction(acts[i]);
    }
    var r := DecodeActionSeq(items);
    assert r.Success?;
    assert forall i :: 0 <= i < |acts| ==> r.value[i] == acts[i];
    assert r.value == acts;
  }

  /** Every decoded combat number fits in an `isize`. */
  lemma DecodedInRange(v: Value, acts: seq<Action>)
    requires DecodeActionsField(v) == Success(acts)
    ensures forall i :: 0 <= i < |acts| ==> InRange(acts[i])
  {
    if v.JArray? {
      forall i | 0 <= i < |acts|
        ensures InRange(acts[i])
      {
        DecodeActionInRange(v.items[i]);
      }
    }
  }

  lemma DecodeActionInRange(v: Value)
    ensures DecodeAction(v).Success? ==> InRange(DecodeAction(v).value)
  {
    if v.JObject? {
      DecodeMembersInRange(NoFields, v.members);
    }
  }

  /** The decoded `Option<isize>` fields of a record, where present, fit in an `isize`. */
  predicate FieldsInRange(f: Fields) {
    && (f.attackBonus.Some? && f.attackBonus.value.Some? ==> IsIsize(f.attackBonus.value.value))
    && (f.damageBonus.Some? && f.damageBonus.value.Some? ==> IsIsize(f.damageBonus.value.value))
  }

  lemma {:induction false} DecodeMembersInRange(f: Fields, ms: seq<(string, Value)>)
    requires FieldsInRange(f)
    ensures DecodeMembers(f, ms).Success? ==> FieldsInRange(DecodeMembers(f, ms).value)
    decreases |ms|
  {
    if |ms| > 0 {
      var r := DecodeMember(f, ms[0].0, ms[0].1);
      if r.Success? {
        DecodeMembersInRange(r.value, ms[1..]);
      }
    }
  }

  // ---------------------------------------------------------------------
  // Object members: order of processing, unknown keys, duplicates.
  // ---------------------------------------------------------------------

  /** Reading two runs of members is reading the first, then the second from where it stopped. */
  lemma {:induction false} DecodeMembersConcat(f: Fields, ms: seq<(string, Value)>, ns: seq<(string, Value)>)
    ensures DecodeMembers(f, ms + ns) ==
      match DecodeMembers(f, ms)
      case Failure(e) => Failure(e)
      case Success(g) => DecodeMembers(g, ns)
    decreases |ms|
  {
    if |ms| == 0 {
      assert ms + ns == ns;
    } else {
      assert (ms + ns)[0] == ms[0];
      assert (ms + ns)[1..] == ms[1..] + ns;
      var r := DecodeMember(f, ms[0].0, ms[0].1);
      if r.Success? {
        DecodeMembersConcat(r.value, ms[1..], ns);
      }
    }
  }

  /** A member whose key is not a field of `Action` has no effect, wherever it stands. */
  lemma UnknownMemberIgnored(ms: seq<(string, Value)>, k: string, v: Value, ns: seq<(string, Value)>)
    requires !IsFieldName(k)
    ensures DecodeAction(JObject(ms + [(k, v)] + ns)) == DecodeAction(JObject(ms + ns))
  {
    DecodeMembersConcat(NoFields, ms + [(k, v)], ns);
    DecodeMembersConcat(NoFields, ms, [(k, v)]);
    DecodeMembersConcat(NoFields, ms, ns);
    var r := DecodeMembers(NoFields, ms);
    if r.Success? {
      assert [(k, v)][1..] == [];
    }
  }

  /** Which fields a record has seen: the key-indexed view of `Fields`. */
  predicate Seen(f: Fields, k: string) {
    if k == NAME_KEY then f.name.Some?
    else if k == DESC_KEY then f.desc.Some?
    else if k == ATTACK_KEY then f.attackBonus.Some?
    else if k == DICE_KEY then f.damageDice.Some?
    else if k == BONUS_KEY then f.damageBonus.Some?
    else false
  }

  /** A known key marks its field seen, and a field once seen stays seen. */
  lemma DecodeMemberSeen(f: Fields, key: string, v: Value, k: string)
    requires DecodeMember(f, key, v).Success?
    ensures IsFieldName(key) ==> Seen(DecodeMember(f, key, v).value, key)
    ensures Seen(f, k) ==> Seen(DecodeMember(f, key, v).value, k)
  {
  }

  lemma {:induction false} DecodeMembersSeen(f: Fields, ms: seq<(string, Value)>, k: string)
    requires DecodeMembers(f, ms).Success? && Seen(f, k)
    ensures Seen(DecodeMembers(f, ms).value, k)
    decreases |ms|
  {
    if |ms| > 0 {
      var r := DecodeMember(f, ms[0].0, ms[0].1);
      DecodeMemberSeen(f, ms[0].0, ms[0].1, k);
      DecodeMembersSeen(r.value, ms[1..], k);
    }
  }

  /** An object naming the same field twice does not decode. */
  lemma DuplicateFieldRejected(ms: seq<(string, Value)>, k: string, v: Value,
                               ns: seq<(string, Value)>, w: Value, ps: seq<(string, Value)>)
    requires IsFieldName(k)
    ensures DecodeAction(JObject(ms + [(k, v)] + ns + [(k, w)] + ps)).Failure?
  {
    var front := ms + [(k, v)] + ns;
    DecodeMembersConcat(NoFields, front + [(k, w)], ps);
    DecodeMembersConcat(NoFields, front, [(k, w)]);
    DecodeMembersConcat(NoFields, ms + [(k, v)], ns);
    DecodeMembersConcat(NoFields, ms, [(k, v)]);
    var r := DecodeMembers(NoFields, ms);
    if r.Success? {
      assert [(k, v)][1..] == [];
      var r1 := DecodeMember(r.value, k, v);
      if r1.Success? {
        DecodeMemberSeen(r.value, k, v, k);
        assert DecodeMembers(NoFields, ms + [(k, v)]) == Success(r1.value);
        if DecodeMembers(r1.value, ns).Success? {
          DecodeMembersSeen(r1.value, ns, k);
          var g := DecodeMembers(r1.value, ns).value;
          assert DecodeMember(g, k, w).Failure?;
          assert DecodeMembers(g, [(k, w)]).Failure?;
        }
      }
    }
  }

  /** An object without a `name` member does not decode. */
  lemma NameRequired(ms: seq<(string, Value)>)
    requires forall i :: 0 <= i < |ms| ==> ms[i].0 != NAME_KEY
    ensures DecodeAction(JObject(ms)).Failure?
  {
    NameStaysUnseen(NoFields, ms);
  }

  lemma {:induction false} NameStaysUnseen(f: Fields, ms: seq<(string, Value)>)
    requires f.name.None?
    requires forall i :: 0 <= i < |ms| ==> ms[i].0 != NAME_KEY
    ensures DecodeMembers(f, ms).Success? ==> DecodeMembers(f, ms).value.name.None?
    decreases |ms|
  {
    if |ms| > 0 {
      var r := DecodeMember(f, ms[0].0, ms[0].1);
      if r.Success? {
        NameStaysUnseen(r.value, ms[1..]);
      }
    }
  }

  // ---------------------------------------------------------------------
  // What an object decodes to, whatever the order of its members.
  // ---------------------------------------------------------------------

  /** The value of the first member named `k`, if there is one. */
  function Find(ms: seq<(string, Value)>, k: string): Option<Value>
    decreases |ms|
  {
    if |ms| == 0 then None
    else if ms[0].0 == k then Some(ms[0].1)
    else Find(ms[1..], k)
  }

  /** No field of `Action` is named twice (unknown keys may repeat). */
  predicate DistinctFields(ms: seq<(string, Value)>) {
    forall i, j :: 0 <= i < j < |ms| && IsFieldName(ms[i].0) ==> ms[i].0 != ms[j].0
  }

  /** The JSON shapes each field accepts: a string, an integer in range or `null`, as the field's type demands. */
  predicate WellTyped(k: string, v: Value) {
    if k == NAME_KEY || k == DESC_KEY then v.JString?
    else if k == ATTACK_KEY || k == BONUS_KEY then v.JNull? || (v.JNumber? && v.n.Integer? && IsIsize(v.n.i))
    else if k == DICE_KEY then v.JNull? || v.JString?
    else true
  }

  predicate MembersWellTyped(ms: seq<(string, Value)>) {
    forall i :: 0 <= i < |ms| ==> WellTyped(ms[i].0, ms[i].1)
  }

  /** A `String` field read from an optional member. */
  function StringOf(o: Option<Value>): string {
    if o.Some? && o.value.JString? then o.value.s else ""
  }

  /** An `Option<isize>` field read from an optional member: absent and `null` are both `None`. */
  function OptIntOf(o: Option<Value>): Option<int> {
    if o.Some? && o.value.JNumber? && o.value.n.Integer? then Some(o.value.n.i) else None
  }

  /** An `Option<String>` field read from an optional member: absent and `null` are both `None`. */
  function OptStringOf(o: Option<Value>): Option<string> {
    if o.Some? && o.value.JString? then Some(o.value.s) else None
  }

  /** The fields `f` already holds, completed by the members `ms` names. */
  function Gather(f: Fields, ms: seq<(string, Value)>): Fields {
    Fields(
      if f.name.Some? then f.name
      else if Find(ms, NAME_KEY).Some? then Some(StringOf(Find(ms, NAME_KEY))) else None,
      if f.desc.Some? then f.desc
      else if Find(ms, DESC_KEY).Some? then Some(StringOf(Find(ms, DESC_KEY))) else None,
      if f.attackBonus.Some? then f.attackBonus
      else if Find(ms, ATTACK_KEY).Some? then Some(OptIntOf(Find(ms, ATTACK_KEY))) else None,
      if f.damageDice.Some? then f.damageDice
      else if Find(ms, DICE_KEY).Some? then Some(OptStringOf(Find(ms, DICE_KEY))) else None,
      if f.damageBonus.Some? then f.damageBonus
      else if Find(ms, BONUS_KEY).Some? then Some(OptIntOf(Find(ms, BONUS_KEY))) else None)
  }

  /** One well-typed member whose field is not yet seen fills in that field. */
  lemma DecodeMemberFills(f: Fields, m: (string, Value))
    requires WellTyped(m.0, m.1) && !Seen(f, m.0)
    ensures DecodeMember(f, m.0, m.1) == Success(Gather(f, [m]))
  {
    assert [m][1..] == [];
    assert forall k :: Find([m], k) == if m.0 == k then Some(m.1) else None;
  }

  lemma {:induction false} DecodeMembersGather(f: Fields, ms: seq<(string, Value)>)
    requires DistinctFields(ms) && MembersWellTyped(ms)
    requires forall i :: 0 <= i < |ms| ==> !Seen(f, ms[i].0)
    ensures DecodeMembers(f, ms) == Success(Gather(f, ms))
    decreases |ms|
  {
    if |ms| > 0 {
      var m, rest := ms[0], ms[1..];
      DecodeMemberFills(f, m);
      var g := Gather(f, [m]);
      forall i | 0 <= i < |rest|
        ensures !Seen(g, rest[i].0)
      {
        assert rest[i] == ms[i + 1];
      }
      assert DistinctFields(rest) by {
        forall i, j | 0 <= i < j < |rest| && IsFieldName(rest[i].0)
          ensures rest[i].0 != rest[j].0
        {
          assert rest[i] == ms[i + 1] && rest[j] == ms[j + 1];
        }
      }
      assert MembersWellTyped(rest) by {
        forall i | 0 <= i < |rest|
          ensures WellTyped(rest[i].0, rest[i].1)
        {
          assert rest[i] == ms[i + 1];
        }
      }
      DecodeMembersGather(g, rest);
      assert Gather(g, rest) == Gather(f, ms);
    }
  }

  /**
   * An object whose members are well typed and name no field twice decodes,
   * in whatever order its members come, exactly when it has `name` and
   * `desc`; each `Option` field is `None` when its key is absent or `null`.
   */
  lemma DecodeObject(ms: seq<(string, Value)>)
    requires DistinctFields(ms) && MembersWellTyped(ms)
    ensures Find(ms, NAME_KEY).None? ==> DecodeAction(JObject(ms)) == Failure(MissingField(NAME_KEY))
    ensures Find(ms, NAME_KEY).Some? && Find(ms, DESC_KEY).None? ==>
      DecodeAction(JObject(ms)) == Failure(MissingField(DESC_KEY))
    ensures Find(ms, NAME_KEY).Some? && Find(ms, DESC_KEY).Some? ==>
      DecodeAction(JObject(ms)) == Success(Action(
        StringOf(Find(ms, NAME_KEY)), StringOf(Find(ms, DESC_KEY)),
        OptIntOf(Find(ms, ATTACK_KEY)), OptStringOf(Find(ms, DICE_KEY)), OptIntOf(Find(ms, BONUS_KEY))))
  {
    DecodeMembersGather(NoFields, ms);
  }

  /** A member that decodes has a well-typed value. */
  lemma DecodeMemberWellTyped(f: Fields, k: string, v: Value)
    requires DecodeMember(f, k, v).Success?
    ensures WellTyped(k, v)
  {
  }

  lemma {:induction false} DecodeMembersWellTyped(f: Fields, ms: seq<(string, Value)>)
    requires DecodeMembers(f, ms).Success?
    ensures MembersWellTyped(ms)
    decreases |ms|
  {
    if |ms| > 0 {
      var r := DecodeMember(f, ms[0].0, ms[0].1);
      DecodeMemberWellTyped(f, ms[0].0, ms[0].1);
      DecodeMembersWellTyped(r.value, ms[1..]);
      forall i | 0 <= i < |ms|
        ensures WellTyped(ms[i].0, ms[i].1)
      {
        if i > 0 {
          assert ms[i] == ms[1..][i - 1];
        }
      }
    }
  }

  /**
   * The converse of `DecodeObject`: an object that decodes has well-typed
   * members and names no field twice. A value of the wrong type for its field,
   * or a repeated field, makes the whole object fail.
   */
  lemma DecodedObjectWellFormed(ms: seq<(string, Value)>)
    requires DecodeAction(JObject(ms)).Success?
    ensures MembersWellTyped(ms) && DistinctFields(ms)
  {
    DecodeMembersWellTyped(NoFields, ms);
    forall i, j | 0 <= i < j < |ms| && IsFieldName(ms[i].0)
      ensures ms[i].0 != ms[j].0
    {
      if ms[i].0 == ms[j].0 {
        assert ms == ms[..i] + [(ms[i].0, ms[i].1)] + ms[i + 1..j] + [(ms[i].0, ms[j].1)] + ms[j + 1..];
        DuplicateFieldRejected(ms[..i], ms[i].0, ms[i].1, ms[i + 1..j], ms[j].1, ms[j + 1..]);
      }
    }
  }

  /** An object with only a name, a description and an attack bonus. */
  lemma AttackOnlyObject()
    ensures DecodeAction(JObject([(NAME_KEY, JString("Claw")), (DESC_KEY, JString("Melee attack.")),
                                  (ATTACK_KEY, JNumber(Integer(5)))]))
         == Success(Action("Claw", "Melee attack.", Some(5), None, None))
  {
    var ms := [(NAME_KEY, JString("Claw")), (DESC_KEY, JString("Melee attack.")),
               (ATTACK_KEY, JNumber(Integer(5)))];
    assert MembersWellTyped(ms);
    var t1 := ms[1..];
    var t2 := t1[1..];
    assert t2[1..] == [];
    assert Find(t2, ATTACK_KEY) == Some(JNumber(Integer(5)));
    assert Find(t2[1..], DICE_KEY) == None;
    assert Find(t2, DICE_KEY) == None;
    assert Find(t2[1..], BONUS_KEY) == None;
    assert Find(t2, BONUS_KEY) == None;
    assert Find(t1, DESC_KEY) == Some(JString("Melee attack."));
    DecodeObject(ms);
  }

  /** When no field is named twice, the lookup of a field finds exactly the members with that key. */
  lemma {:induction false} FindMember(ms: seq<(string, Value)>, k: string, v: Value)
    requires DistinctFields(ms) && IsFieldName(k)
    ensures Find(ms, k) == Some(v) <==> (k, v) in ms
    decreases |ms|
  {
    if |ms| > 0 {
      var rest := ms[1..];
      assert DistinctFields(rest) by {
        forall i, j | 0 <= i < j < |rest| && IsFieldName(rest[i].0)
          ensures rest[i].0 != rest[j].0
        {
          assert rest[i] == ms[i + 1] && rest[j] == ms[j + 1];
        }
      }
      FindMember(rest, k, v);
      assert ms == [ms[0]] + rest;
    }
  }

  /** Two objects without repeated fields that hold the same members look up every field alike. */
  lemma FindReordered(ms: seq<(string, Value)>, ns: seq<(string, Value)>, k: string)
    requires DistinctFields(ms) && DistinctFields(ns) && multiset(ms) == multiset(ns)
    requires IsFieldName(k)
    ensures Find(ms, k) == Find(ns, k)
  {
    if Find(ms, k).Some? {
      var v := Find(ms, k).value;
      FindMember(ms, k, v);
      assert (k, v) in multiset(ns);
      FindMember(ns, k, v);
    } else if Find(ns, k).Some? {
      var w := Find(ns, k).value;
      FindMember(ns, k, w);
      assert (k, w) in multiset(ms);
      FindMember(ms, k, w);
    }
  }

  /**
   * The order of an object's members does not matter: two objects without
   * repeated fields that hold the same well-typed members decode alike.
   */
  lemma DecodeObjectReordered(ms: seq<(string, Value)>, ns: seq<(string, Value)>)
    requires DistinctFields(ms) && DistinctFields(ns) && multiset(ms) == multiset(ns)
    requires MembersWellTyped(ms)
    ensures DecodeAction(JObject(ms)) == DecodeAction(JObject(ns))
  {
    forall i | 0 <= i < |ns|
      ensures WellTyped(ns[i].0, ns[i].1)
    {
      assert ns[i] in multiset(ms);
      var j :| 0 <= j < |ms| && ms[j] == ns[i];
    }
    FindReordered(ms, ns, NAME_KEY);
    FindReordered(ms, ns, DESC_KEY);
    FindReordered(ms, ns, ATTACK_KEY);
    FindReordered(ms, ns, DICE_KEY);
    FindReordered(ms, ns, BONUS_KEY);
    DecodeObject(ms);
    DecodeObject(ns);
  }

  // ---------------------------------------------------------------------
  // Integer literals, as serde_json classifies them.
  // ---------------------------------------------------------------------

  /**
   * An integer literal decodes as an `isize` exactly when it is not `-0` and
   * its value fits; a `u64` above `isize::MAX` is out of range, and `-0` or a
   * literal beyond `i64`/`u64` arrives as a float, which is the wrong type.
   */
  lemma DecodeIsizeLiteral(negative: bool, magnitude: nat, n: int)
    requires n == (if negative then -(magnitude as int) else magnitude)
    ensures DecodeIsize(JNumber(IntegerLiteral(negative, magnitude))).Success?
        <==> !(negative && magnitude == 0) && IsIsize(n)
    ensures DecodeIsize(JNumber(IntegerLiteral(negative, magnitude))).Success? ==>
      DecodeIsize(JNumber(IntegerLiteral(negative, magnitude))).value == n
    ensures negative && magnitude == 0 ==>
      DecodeIsize(JNumber(IntegerLiteral(negative, magnitude))) == Failure(InvalidType(NumberShape, ISIZE_EXPECTING))
    ensures !negative && ISIZE_MAX < magnitude <= U64_MAX ==>
      DecodeIsize(JNumber(IntegerLiteral(negative, magnitude))) == Failure(OutOfRange(n, ISIZE_EXPECTING))
    ensures !negative && U64_MAX < magnitude ==>
      DecodeIsize(JNumber(IntegerLiteral(negative, magnitude))) == Failure(InvalidType(NumberShape, ISIZE_EXPECTING))
    ensures negative && -ISIZE_MIN < magnitude ==>
      DecodeIsize(JNumber(IntegerLiteral(negative, magnitude))) == Failure(InvalidType(NumberShape, ISIZE_EXPECTING))
  {
  }

  /** `"attack_bonus": -0` makes the whole action fail: serde_json reads `-0` as a float. */
  lemma NegativeZeroRejected(name: string, desc: string)
    ensures DecodeAction(JObject([(NAME_KEY, JString(name)), (DESC_KEY, JString(desc)),
                                  (ATTACK_KEY, JNumber(IntegerLiteral(true, 0)))]))
         == Failure(InvalidType(NumberShape, ISIZE_EXPECTING))
  {
    var ms := [(NAME_KEY, JString(name)), (DESC_KEY, JString(desc)),
               (ATTACK_KEY, JNumber(IntegerLiteral(true, 0)))];
    var f2 := NoFields.(name := Some(name), desc := Some(desc));
    assert DecodeMember(NoFields, ms[0].0, ms[0].1) == Success(NoFields.(name := Some(name)));
    assert DecodeMember(NoFields.(name := Some(name)), ms[1].0, ms[1].1) == Success(f2);
    assert DecodeMember(f2, ms[2].0, ms[2].1) == Failure(InvalidType(NumberShape, ISIZE_EXPECTING));
    assert DecodeMembers(f2, ms[2..]).Failure?;
    assert DecodeMembers(NoFields, ms) == Failure(InvalidType(NumberShape, ISIZE_EXPECTING));
  }

  // ---------------------------------------------------------------------
  // The string case, composed with rendering.
  // ---------------------------------------------------------------------

  /** A bare string decodes to one action that renders as a heading over two empty lines. */
  lemma DecodedStringRender(s: string)
    requires s != ""
    ensures Render(DecodeActionsField(JString(s)).value[0]) == "1. **" + s + "**\n\n\n"
  {
    RenderWithoutCombat(DecodeActionsField(JString(s)).value[0]);
  }

  /** A bare empty string decodes to the sentinel action, which contributes nothing to a section. */
  lemma EmptyStringRendersNothing()
    ensures ActionsText(DecodeActionsField(JString("")).value) == ""
  {
    var acts := DecodeActionsField(JString("")).value;
    ActionsTextEmpty(acts);
  }
}
