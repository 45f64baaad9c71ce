/** The relationship-editor web service call: the `rel-editor.rels.0.*`
    payload posted for one relationship, with its two endpoints ordered by
    type tag, and the reading of the JSON reply as applied, "no changes" or
    an error. */
module Relationship {
  import opened Strings
  import opened Values

  // The payload keys, as `"rel-editor." + ...` spells them out.
  const ActionKey := "rel-editor.rels.0.action"
  const LinkTypeKey := "rel-editor.rels.0.link_type"
  const EditNoteKey := "rel-editor.edit_note"
  const VotableKey := "rel-editor.make_votable"
  const IdKey := "rel-editor.rels.0.id"
  const Entity0Base := "rel-editor.rels.0.entity.0."
  const Entity1Base := "rel-editor.rels.0.entity.1."
  const AttrsBase := "rel-editor.rels.0.attrs."
  const BeginBase := "rel-editor.rels.0.period.begin_date."
  const EndBase := "rel-editor.rels.0.period.end_date."
  const EndedKey := "rel-editor.rels.0.period.ended"

  /** A dict's items in insertion order; as a dict, later items win. */
  type Items = seq<(string, Scalar)>

  function Dict(items: Items): map<string, Scalar> {
    PutAll(map[], items)
  }

  /** A relationship endpoint dict: its entries, then its `type` tag. */
  datatype Endpoint = Endpoint(fields: Items, entityType: string)

  /** `entity.items()`. */
  function EndpointItems(e: Endpoint): Items {
    e.fields + [("type", Str(e.entityType))]
  }

  /** `sorted([e0, e1], key=lambda entity: entity["type"])`: Python's sort is
      stable, so equal tags keep the argument order. */
  function SortByType(e0: Endpoint, e1: Endpoint): (r: (Endpoint, Endpoint))
    ensures !Less(r.1.entityType, r.0.entityType)
    ensures (r == (e0, e1)) || (r == (e1, e0))
    ensures !Less(e1.entityType, e0.entityType) ==> r == (e0, e1)
  {
    LessTrichotomy(e0.entityType, e1.entityType);
    if Less(e1.entityType, e0.entityType) then (e1, e0) else (e0, e1)
  }

  /** `str(v)` when `stringify`, else `v` itself. */
  function Conv(v: Scalar, stringify: bool): Scalar {
    if stringify then Str(ToStr(v)) else v
  }

  /** The pairs `(base + k, v)` (or `str(v)`) that `dta.update(...)` writes
      for the items of a dict, in order. */
  function Prefixed(base: string, items: Items, stringify: bool): Items
    decreases |items|
  {
    if items == [] then []
    else
      var n := |items| - 1;
      Prefixed(base, items[..n], stringify) + [(base + items[n].0, Conv(items[n].1, stringify))]
  }

  /** The arguments of `_relationship_editor_webservice_action`. */
  datatype RelEdit = RelEdit(
    action: string,
    relId: Scalar,
    linkType: Scalar,
    editNote: string,
    auto: bool,
    entity0: Endpoint,
    entity1: Endpoint,
    attributes: Items,
    beginDate: Items,
    endDate: Items,
    ended: Scalar)

  /** The guard checked before anything is sent: editing or removing a
      relationship needs its id. */
  predicate MissingId(r: RelEdit) {
    (r.action == "edit" || r.action == "remove") && r.relId == Null
  }

  // ---- the payload, one `dta` update at a time ------------------------------------

  /** The four keys every payload starts with. `not auto and 1 or 0` is 0 for
      an auto-edit and 1 otherwise. */
  function Base(r: RelEdit): map<string, Scalar> {
    map[
      ActionKey := Str(r.action),
      LinkTypeKey := r.linkType,
      EditNoteKey := Str(r.editNote),
      VotableKey := Int(if r.auto then 0 else 1)]
  }

  /** `if rel_id: dta[...id] = rel_id`. */
  function WithId(r: RelEdit): map<string, Scalar> {
    if Truthy(r.relId) then Base(r)[IdKey := r.relId] else Base(r)
  }

  function Sorted(r: RelEdit): (Endpoint, Endpoint) {
    SortByType(r.entity0, r.entity1)
  }

  /** The entity generator writes `entity.0.*` from the first sorted endpoint,
      then `entity.1.*` from the second. */
  function WithFirst(r: RelEdit): map<string, Scalar> {
    PutAll(WithId(r), Prefixed(Entity0Base, EndpointItems(Sorted(r).0), false))
  }

  function WithSecond(r: RelEdit): map<string, Scalar> {
    PutAll(WithFirst(r), Prefixed(Entity1Base, EndpointItems(Sorted(r).1), false))
  }

  function WithAttrs(r: RelEdit): map<string, Scalar> {
    PutAll(WithSecond(r), Prefixed(AttrsBase, r.attributes, true))
  }

  function WithBegin(r: RelEdit): map<string, Scalar> {
    PutAll(WithAttrs(r), Prefixed(BeginBase, r.beginDate, true))
  }

  function WithEnd(r: RelEdit): map<string, Scalar> {
    PutAll(WithBegin(r), Prefixed(EndBase, r.endDate, true))
  }

  /** The `dta` dict posted to the relationship editor: `ended` is written
      only when it `is True`. */
  function RelPayload(r: RelEdit): map<string, Scalar> {
    if r.ended == Bool(true) then WithEnd(r)[EndedKey := Str("true")] else WithEnd(r)
  }

  // ---- keys stay apart -------------------------------------------------------------

  /** Two keys that differ at a position inside both prefixes are different,
      whatever follows the prefixes. */
  lemma Apart(b1: string, x: string, b2: string, y: string, i: nat)
    requires i < |b1| && i < |b2| && b1[i] != b2[i]
    ensures b1 + x != b2 + y
  {
    assert (b1 + x)[i] == b1[i];
    assert (b2 + y)[i] == b2[i];
  }

  lemma PrefixInjective(base: string, x: string, y: string)
    ensures base + x == base + y ==> x == y
  {
    if base + x == base + y {
      assert (base + x)[|base|..] == x;
      assert (base + y)[|base|..] == y;
    }
  }

  /** A key that departs from `base` inside it is left alone by the update. */
  lemma {:induction false} PrefixedAvoids(m: map<string, Scalar>, key: string, base: string, items: Items, s: bool, i: nat)
    requires i < |base| && i < |key| && key[i] != base[i]
    ensures (key in PutAll(m, Prefixed(base, items, s))) == (key in m)
    ensures key in m ==> PutAll(m, Prefixed(base, items, s))[key] == m[key]
    decreases |items|
  {
    if items != [] {
      var n := |items| - 1;
      PrefixedAvoids(m, key, base, items[..n], s, i);
      Apart(base, items[n].0, key, [], i);
      assert key + [] == key;
    }
  }

  /** After the update, `base + k` holds the dict's value for `k` (through
      `str` when stringified), or what it held before if `k` is not a key. */
  lemma {:induction false} PrefixedLookup(m: map<string, Scalar>, base: string, items: Items, s: bool, k: string)
    ensures (base + k in PutAll(m, Prefixed(base, items, s))) <==> (base + k in m || k in Dict(items))
    ensures k in Dict(items) ==> PutAll(m, Prefixed(base, items, s))[base + k] == Conv(Dict(items)[k], s)
    ensures k !in Dict(items) && base + k in m ==> PutAll(m, Prefixed(base, items, s))[base + k] == m[base + k]
    decreases |items|
  {
    if items != [] {
      var n := |items| - 1;
      PrefixedLookup(m, base, items[..n], s, k);
      PrefixInjective(base, items[n].0, k);
    }
  }

  /** A key outside every block is carried from `WithId` to `WithEnd`; the
      indices say where it departs from each block's prefix. */
  lemma KeptFromBegin(r: RelEdit, key: string, ie: nat)
    requires ie < |EndBase| && ie < |key| && key[ie] != EndBase[ie]
    ensures (key in WithEnd(r)) == (key in WithBegin(r))
    ensures key in WithBegin(r) ==> WithEnd(r)[key] == WithBegin(r)[key]
  {
    PrefixedAvoids(WithBegin(r), key, EndBase, r.endDate, true, ie);
  }

  lemma KeptFromAttrs(r: RelEdit, key: string, ib: nat, ie: nat)
    requires ib < |BeginBase| && ib < |key| && key[ib] != BeginBase[ib]
    requires ie < |EndBase| && ie < |key| && key[ie] != EndBase[ie]
    ensures (key in WithEnd(r)) == (key in WithAttrs(r))
    ensures key in WithAttrs(r) ==> WithEnd(r)[key] == WithAttrs(r)[key]
  {
    PrefixedAvoids(WithAttrs(r), key, BeginBase, r.beginDate, true, ib);
    KeptFromBegin(r, key, ie);
  }

  lemma KeptFromSecond(r: RelEdit, key: string, ia: nat, ib: nat, ie: nat)
    requires ia < |AttrsBase| && ia < |key| && key[ia] != AttrsBase[ia]
    requires ib < |BeginBase| && ib < |key| && key[ib] != BeginBase[ib]
    requires ie < |EndBase| && ie < |key| && key[ie] != EndBase[ie]
    ensures (key in WithEnd(r)) == (key in WithSecond(r))
    ensures key in WithSecond(r) ==> WithEnd(r)[key] == WithSecond(r)[key]
  {
    PrefixedAvoids(WithSecond(r), key, AttrsBase, r.attributes, true, ia);
    KeptFromAttrs(r, key, ib, ie);
  }

  /** A key departing from every block prefix at position 18 keeps its
      `WithId` entry to the end. */
  lemma KeptFromId(r: RelEdit, key: string)
    requires |key| > 18 && key[18] != 'e' && key[18] != 'p' && (key[18] == 'a' ==> |key| > 19 && key[19] != 't')
    ensures (key in WithEnd(r)) == (key in WithId(r))
    ensures key in WithId(r) ==> WithEnd(r)[key] == WithId(r)[key]
  {
    PrefixChars();
    PrefixedAvoids(WithId(r), key, Entity0Base, EndpointItems(Sorted(r).0), false, 18);
    PrefixedAvoids(WithFirst(r), key, Entity1Base, EndpointItems(Sorted(r).1), false, 18);
    if key[18] == 'a' {
      KeptFromSecond(r, key, 19, 18, 18);
    } else {
      KeptFromSecond(r, key, 18, 18, 18);
    }
  }

  /** Where the payload's key prefixes first differ. */
  lemma PrefixChars()
    ensures Entity0Base[18] == 'e' && Entity0Base[25] == '0'
    ensures Entity1Base[18] == 'e' && Entity1Base[25] == '1'
    ensures AttrsBase[18] == 'a' && AttrsBase[19] == 't'
    ensures BeginBase[18] == 'p' && BeginBase[25] == 'b'
    ensures EndBase[18] == 'p' && EndBase[25] == 'e' && EndBase[28] == '_'
    ensures EndedKey[18] == 'p' && EndedKey[25] == 'e' && EndedKey[28] == 'e'
    ensures ActionKey[18] == 'a' && ActionKey[19] == 'c' && LinkTypeKey[18] == 'l' && IdKey[18] == 'i'
    ensures EditNoteKey[11] == 'e' && VotableKey[11] == 'm' && Entity0Base[11] == 'r'
  {
  }

  /** A key under a block prefix is none of the four base keys nor the id key,
      so it is absent before the entity blocks are written. */
  lemma NotInWithId(r: RelEdit, key: string)
    requires |key| > 19 && key[11] == 'r' && key[18] != 'l' && key[18] != 'i' && (key[18] == 'a' ==> key[19] == 't')
    ensures key !in WithId(r)
  {
    PrefixChars();
  }

  // ---- what the payload holds ------------------------------------------------------

  /** The action, link type, edit note and votability are always sent;
      `make_votable` is 0 exactly for an auto-edit. */
  lemma {:induction false} FixedFields(r: RelEdit)
    ensures ActionKey in RelPayload(r) && RelPayload(r)[ActionKey] == Str(r.action)
    ensures LinkTypeKey in RelPayload(r) && RelPayload(r)[LinkTypeKey] == r.linkType
    ensures EditNoteKey in RelPayload(r) && RelPayload(r)[EditNoteKey] == Str(r.editNote)
    ensures VotableKey in RelPayload(r) && RelPayload(r)[VotableKey] == Int(if r.auto then 0 else 1)
  {
    PrefixChars();
    KeptFromId(r, ActionKey);
    KeptFromId(r, LinkTypeKey);
    KeptFromId(r, EditNoteKey);
    KeptFromId(r, VotableKey);
  }

  /** The relationship id is sent exactly when it is truthy (so an id of 0 or
      "" is dropped), and then as given. */
  lemma {:induction false} IdOnlyWhenTruthy(r: RelEdit)
    ensures IdKey in RelPayload(r) <==> Truthy(r.relId)
    ensures IdKey in RelPayload(r) ==> RelPayload(r)[IdKey] == r.relId
  {
    PrefixChars();
    KeptFromId(r, IdKey);
  }

  /** `period.ended` is sent, as "true", exactly when `ended is True`: a
      truthy non-bool such as 1 does not count. */
  lemma {:induction false} EndedOnlyWhenTrue(r: RelEdit)
    ensures EndedKey in RelPayload(r) <==> r.ended == Bool(true)
    ensures EndedKey in RelPayload(r) ==> RelPayload(r)[EndedKey] == Str("true")
  {
    PrefixChars();
    NotInWithId(r, EndedKey);
    PrefixedAvoids(WithId(r), EndedKey, Entity0Base, EndpointItems(Sorted(r).0), false, 18);
    PrefixedAvoids(WithFirst(r), EndedKey, Entity1Base, EndpointItems(Sorted(r).1), false, 18);
    PrefixedAvoids(WithSecond(r), EndedKey, AttrsBase, r.attributes, true, 18);
    PrefixedAvoids(WithAttrs(r), EndedKey, BeginBase, r.beginDate, true, 25);
    KeptFromBegin(r, EndedKey, 28);
  }

  /** Each attribute `k` is sent as `attrs.k` with the value `str(v)`, and no
      other `attrs.` key is sent. */
  lemma {:induction false} AttributesSent(r: RelEdit, k: string)
    ensures AttrsBase + k in RelPayload(r) <==> k in Dict(r.attributes)
    ensures k in Dict(r.attributes) ==> RelPayload(r)[AttrsBase + k] == Str(ToStr(Dict(r.attributes)[k]))
  {
    var key := AttrsBase + k;
    PrefixChars();
    assert key[11] == 'r' && key[18] == 'a' && key[19] == 't';
    NotInWithId(r, key);
    PrefixedAvoids(WithId(r), key, Entity0Base, EndpointItems(Sorted(r).0), false, 18);
    PrefixedAvoids(WithFirst(r), key, Entity1Base, EndpointItems(Sorted(r).1), false, 18);
    PrefixedLookup(WithSecond(r), AttrsBase, r.attributes, true, k);
    KeptFromAttrs(r, key, 18, 18);
    Apart(EndedKey, [], AttrsBase, k, 18);
    assert EndedKey + [] == EndedKey;
  }

  /** Each begin-date part `k` is sent as `period.begin_date.k` = `str(v)`. */
  lemma {:induction false} BeginDateSent(r: RelEdit, k: string)
    ensures BeginBase + k in RelPayload(r) <==> k in Dict(r.beginDate)
    ensures k in Dict(r.beginDate) ==> RelPayload(r)[BeginBase + k] == Str(ToStr(Dict(r.beginDate)[k]))
  {
    var key := BeginBase + k;
    PrefixChars();
    assert key[11] == 'r' && key[18] == 'p' && key[25] == 'b';
    NotInWithId(r, key);
    PrefixedAvoids(WithId(r), key, Entity0Base, EndpointItems(Sorted(r).0), false, 18);
    PrefixedAvoids(WithFirst(r), key, Entity1Base, EndpointItems(Sorted(r).1), false, 18);
    PrefixedAvoids(WithSecond(r), key, AttrsBase, r.attributes, true, 18);
    PrefixedLookup(WithAttrs(r), BeginBase, r.beginDate, true, k);
    KeptFromBegin(r, key, 25);
    Apart(EndedKey, [], BeginBase, k, 25);
    assert EndedKey + [] == EndedKey;
  }

  /** Each end-date part `k` is sent as `period.end_date.k` = `str(v)`. */
  lemma {:induction false} EndDateSent(r: RelEdit, k: string)
    ensures EndBase + k in RelPayload(r) <==> k in Dict(r.endDate)
    ensures k in Dict(r.endDate) ==> RelPayload(r)[EndBase + k] == Str(ToStr(Dict(r.endDate)[k]))
  {
    var key := EndBase + k;
    PrefixChars();
    assert key[11] == 'r' && key[18] == 'p' && key[25] == 'e';
    NotInWithId(r, key);
    PrefixedAvoids(WithId(r), key, Entity0Base, EndpointItems(Sorted(r).0), false, 18);
    PrefixedAvoids(WithFirst(r), key, Entity1Base, EndpointItems(Sorted(r).1), false, 18);
    PrefixedAvoids(WithSecond(r), key, AttrsBase, r.attributes, true, 18);
    PrefixedAvoids(WithAttrs(r), key, BeginBase, r.beginDate, true, 25);
    PrefixedLookup(WithBegin(r), EndBase, r.endDate, true, k);
    Apart(EndedKey, [], EndBase, k, 28);
    assert EndedKey + [] == EndedKey;
  }

  /** The endpoint whose type sorts first is sent as `entity.0`, every entry
      unchanged, its `type` included. */
  lemma {:induction false} FirstEntitySent(r: RelEdit, k: string)
    ensures Entity0Base + k in RelPayload(r) <==> k in Dict(EndpointItems(Sorted(r).0))
    ensures k in Dict(EndpointItems(Sorted(r).0)) ==> RelPayload(r)[Entity0Base + k] == Dict(EndpointItems(Sorted(r).0))[k]
  {
    var key := Entity0Base + k;
    PrefixChars();
    assert key[11] == 'r' && key[18] == 'e' && key[25] == '0';
    NotInWithId(r, key);
    PrefixedLookup(WithId(r), Entity0Base, EndpointItems(Sorted(r).0), false, k);
    PrefixedAvoids(WithFirst(r), key, Entity1Base, EndpointItems(Sorted(r).1), false, 25);
    KeptFromSecond(r, key, 18, 18, 18);
    Apart(EndedKey, [], Entity0Base, k, 18);
    assert EndedKey + [] == EndedKey;
  }

  /** The other endpoint is sent as `entity.1`. */
  lemma {:induction false} SecondEntitySent(r: RelEdit, k: string)
    ensures Entity1Base + k in RelPayload(r) <==> k in Dict(EndpointItems(Sorted(r).1))
    ensures k in Dict(EndpointItems(Sorted(r).1)) ==> RelPayload(r)[Entity1Base + k] == Dict(EndpointItems(Sorted(r).1))[k]
  {
    var key := Entity1Base + k;
    PrefixChars();
    assert key[11] == 'r' && key[18] == 'e' && key[25] == '1';
    NotInWithId(r, key);
    PrefixedAvoids(WithId(r), key, Entity0Base, EndpointItems(Sorted(r).0), false, 25);
    PrefixedLookup(WithFirst(r), Entity1Base, EndpointItems(Sorted(r).1), false, k);
    KeptFromSecond(r, key, 18, 18, 18);
    Apart(EndedKey, [], Entity1Base, k, 18);
    assert EndedKey + [] == EndedKey;
  }

  /** An endpoint's `type` entry is its tag: it comes last in `items()`. */
  lemma EndpointType(e: Endpoint)
    ensures "type" in Dict(EndpointItems(e)) && Dict(EndpointItems(e))["type"] == Str(e.entityType)
  {
  }

  /** The two `type` entries sent are in order: `entity.0.type` never sorts
      after `entity.1.type`, and both endpoints are sent. */
  lemma {:induction false} EntitiesOrdered(r: RelEdit)
    ensures Entity0Base + "type" in RelPayload(r) && Entity1Base + "type" in RelPayload(r)
    ensures RelPayload(r)[Entity0Base + "type"] == Str(Sorted(r).0.entityType)
    ensures RelPayload(r)[Entity1Base + "type"] == Str(Sorted(r).1.entityType)
    ensures !Less(Sorted(r).1.entityType, Sorted(r).0.entityType)
    ensures {Sorted(r).0, Sorted(r).1} == {r.entity0, r.entity1}
  {
    EndpointType(Sorted(r).0);
    EndpointType(Sorted(r).1);
    FirstEntitySent(r, "type");
    SecondEntitySent(r, "type");
  }

  /** Python's sort is stable: when the second endpoint's type does not sort
      before the first's (equal types included), the first argument is sent
      as `entity.0` and the second as `entity.1`, every entry unchanged. */
  lemma {:induction false} KeptOrderSent(r: RelEdit, k: string)
    requires !Less(r.entity1.entityType, r.entity0.entityType)
    ensures Entity0Base + k in RelPayload(r) <==> k in Dict(EndpointItems(r.entity0))
    ensures k in Dict(EndpointItems(r.entity0)) ==> RelPayload(r)[Entity0Base + k] == Dict(EndpointItems(r.entity0))[k]
    ensures Entity1Base + k in RelPayload(r) <==> k in Dict(EndpointItems(r.entity1))
    ensures k in Dict(EndpointItems(r.entity1)) ==> RelPayload(r)[Entity1Base + k] == Dict(EndpointItems(r.entity1))[k]
  {
    assert Sorted(r) == (r.entity0, r.entity1);
    FirstEntitySent(r, k);
    SecondEntitySent(r, k);
  }

  /** Two endpoints of the same type keep their argument order. */
  lemma SameTypeKeepsOrder(r: RelEdit)
    requires r.entity0.entityType == r.entity1.entityType
    ensures Sorted(r) == (r.entity0, r.entity1)
  {
    LessTrichotomy(r.entity0.entityType, r.entity1.entityType);
  }

  /** Endpoints of different types may be passed in either order: the
      payload is the same. */
  lemma {:induction false} EndpointOrderIrrelevant(r: RelEdit)
    requires r.entity0.entityType != r.entity1.entityType
    ensures RelPayload(r) == RelPayload(r.(entity0 := r.entity1, entity1 := r.entity0))
  {
    var r' := r.(entity0 := r.entity1, entity1 := r.entity0);
    LessTrichotomy(r.entity0.entityType, r.entity1.entityType);
    assert Sorted(r) == Sorted(r');
    assert WithId(r) == WithId(r');
  }

  // ---- the reply ------------------------------------------------------------------

  /** Python's `key in j` on a decoded JSON value: key lookup on an object,
      element test on a list, substring test on a string, TypeError otherwise. */
  function JsonIn(j: Json, key: string): Outcome<bool> {
    match j
    case JObj(fields) => Ok(key in fields)
    case JArr(items) => Ok(JStr(key) in items)
    case JStr(s) => Ok(Contains(s, key))
    case _ => Raised(JsonShapeError)
  }

  /** `j[key]`: only an object with that key answers. */
  function JsonGet(j: Json, key: string): Outcome<Json> {
    if j.JObj? && key in j.fields then Ok(j.fields[key]) else Raised(JsonShapeError)
  }

  /** `j[0]`: the first element of a list or the first character of a string. */
  function JsonFirst(j: Json): Outcome<Json> {
    match j
    case JArr(items) => if items == [] then Raised(JsonShapeError) else Ok(items[0])
    case JStr(s) => if s == "" then Raised(JsonShapeError) else Ok(JStr([s[0]]))
    case _ => Raised(JsonShapeError)
  }

  /** The reading of the relationship editor's reply: `None` when the body is
      not JSON. The result is whether the edit changed anything. */
  function ClassifyReply(reply: Option<Json>): Outcome<bool> {
    match reply
    case None => Raised(MalformedJson)
    case Some(j) =>
      match JsonIn(j, "edits")
      case Raised(e) => Raised(e)
      case Ok(hasEdits) =>
        if !hasEdits then Raised(UnableToPostEdit)
        else
          match JsonIn(j, "error")
          case Raised(e) => Raised(e)
          case Ok(hasError) =>
            if hasError then Raised(UnableToPostEdit)
            else ClassifyFirstEdit(j)
  }

  /** `"message" in jmsg["edits"][0] and jmsg["edits"][0]["message"] == "no changes"`. */
  function ClassifyFirstEdit(j: Json): Outcome<bool> {
    match JsonGet(j, "edits")
    case Raised(e) => Raised(e)
    case Ok(edits) =>
      match JsonFirst(edits)
      case Raised(e) => Raised(e)
      case Ok(first) =>
        match JsonIn(first, "message")
        case Raised(e) => Raised(e)
        case Ok(hasMessage) =>
          if !hasMessage then Ok(true)
          else
            match JsonGet(first, "message")
            case Raised(e) => Raised(e)
            case Ok(message) => Ok(message != JStr("no changes"))
  }

  /** A well-formed reply: an object with a non-empty `edits` list and no
      `error` key. */
  predicate WellFormedReply(j: Json) {
    j.JObj? && "edits" in j.fields && "error" !in j.fields
    && j.fields["edits"].JArr? && |j.fields["edits"].items| > 0
  }

  /** The first edit reported in a well-formed reply. */
  function FirstEdit(j: Json): Json
    requires WellFormedReply(j)
  {
    j.fields["edits"].items[0]
  }

  /** "No changes" is reported exactly for a well-formed reply whose first
      edit is an object with `message` "no changes". */
  lemma ReplyNoChangesIff(j: Json)
    ensures ClassifyReply(Some(j)) == Ok(false) <==>
      WellFormedReply(j) && FirstEdit(j).JObj? && "message" in FirstEdit(j).fields
      && FirstEdit(j).fields["message"] == JStr("no changes")
  {
  }

  /** A well-formed reply whose first edit is an object reads as "applied"
      unless its message is "no changes". */
  lemma ReplyApplied(j: Json)
    requires WellFormedReply(j) && FirstEdit(j).JObj?
    ensures ClassifyReply(Some(j)) ==
      Ok(!("message" in FirstEdit(j).fields && FirstEdit(j).fields["message"] == JStr("no changes")))
  {
  }

  /** Any result at all needs an object reply with `edits` and no `error`:
      an error report or a missing `edits` raises "unable to post edit". */
  lemma ReplyOkNeedsEdits(j: Json)
    ensures ClassifyReply(Some(j)).Ok? ==> j.JObj? && "edits" in j.fields && "error" !in j.fields
    ensures j.JObj? && ("edits" !in j.fields || "error" in j.fields) ==> ClassifyReply(Some(j)) == Raised(UnableToPostEdit)
  {
  }

  /** A body that is not JSON raises the parse error. */
  lemma ReplyMalformed()
    ensures ClassifyReply(None) == Raised(MalformedJson)
  {
  }
}
