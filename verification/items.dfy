/**
 * The record shapes the scrapers emit: each item class declares its fields,
 * and some fields declare an input processor (run on every value added to
 * the field) and an output processor (run on the processed values when the
 * item is loaded).
 */
module Items {
  import opened Text
  import opened Records
  import opened Utils
  import opened Urls
  import opened Serializers

  datatype ItemClass =
    | Person | SkupstinaMePerson | Organization | Membership | Motion
    | Count | VoteEvent | Vote | Speech | Event

  /** `item.__class__.__name__` */
  function ClassName(k: ItemClass): (name: string)
    ensures name != [] && '/' !in name
  {
    match k
    case Person => "Person"
    case SkupstinaMePerson => "SkupstinaMePerson"
    case Organization => "Organization"
    case Membership => "Membership"
    case Motion => "Motion"
    case Count => "Count"
    case VoteEvent => "VoteEvent"
    case Vote => "Vote"
    case Speech => "Speech"
    case Event => "Event"
  }

  lemma ClassNameInjective(a: ItemClass, b: ItemClass)
    requires ClassName(a) == ClassName(b)
    ensures a == b
  {
  }

  /** The fields each class declares; an item accepts no others. */
  function Fields(k: ItemClass): set<string> {
    match k
    case Person | SkupstinaMePerson =>
      {"name", "other_names", "identifiers", "family_name", "given_name", "additional_name",
       "honorific_prefix", "honorific_suffix", "patronymic_name", "sort_name", "email", "gender",
       "birth_date", "death_date", "summary", "biography", "image", "links", "sources"}
    case Organization =>
      {"name", "other_names", "identifiers", "classification", "parent", "dissolution_date",
       "founding_date", "contact_details", "start_date", "end_date", "sources"}
    case Membership =>
      {"label", "role", "member", "person_id", "organization_id", "post_id", "on_behalf_of_id",
       "area_id", "start_date", "end_date", "contact_details", "sources"}
    case Motion =>
      {"id", "organization_id", "legislative_session", "legislative_session_id", "creator_id",
       "text", "classification", "date", "requirement", "result", "sources"}
    case Count => {"option", "value"}
    case VoteEvent =>
      {"identifier", "motion_id", "motion", "organization_id", "organization",
       "legislative_session_id", "legislative_session", "result", "group_results", "counts",
       "start_date", "end_date", "sources"}
    case Vote => {"option", "vote_event_id", "pair_id", "group_id", "voter_id", "role", "weight"}
    case Speech =>
      {"creator_id", "role", "attribution_text", "audience_id", "text", "audio", "video", "date",
       "title", "type", "position", "event_id", "sources"}
    case Event => {"name", "identifier", "organization_id", "type", "start_date", "end_date", "sources"}
  }

  /** A record fits a class when it only sets declared fields. */
  predicate Fits(k: ItemClass, r: Record) {
    r.Keys <= Fields(k)
  }

  /**
   * `get_full_url(url, loader_context)`: an http or https URL is kept;
   * anything else is resolved against the loader's `response_url`, which
   * must be present.
   */
  function GetFullUrl(url: string, context: Context): (r: Result<string>)
    ensures StartsWith(url, "http://") || StartsWith(url, "https://") ==> r == Ok(url)
    ensures !StartsWith(url, "http://") && !StartsWith(url, "https://") ==>
      (r.Ok? <==> "response_url" in context && (context["response_url"].Str? || context["response_url"].Null?))
    ensures (!StartsWith(url, "http://") && !StartsWith(url, "https://") && r.Ok?
             && context["response_url"].Str?) ==> r.value == UrlJoin(context["response_url"].s, url)
    ensures !StartsWith(url, "http://") && !StartsWith(url, "https://") && "response_url" !in context ==>
      r == Err(KeyError("response_url"))
  {
    if StartsWith(url, "http://") || StartsWith(url, "https://") then Ok(url)
    else
      var base :- Lookup(context, "response_url");
      match base
      case Str(s) => Ok(UrlJoin(s, url))
      case Null => Ok(url)   // `urljoin` returns the reference when the base is empty
      case _ => Err(TypeError)
  }

  /** The input processors that the item classes declare on their fields. */
  datatype InputProcessor =
    | LoaderDefault      // no processor declared: the loader's own default runs
    | UrlRecord          // `lambda x: {'url': x}`
    | Identifier         // `parse_identifier`
    | OtherName          // `parse_other_names`
    | FullUrl            // `get_full_url`

  function FieldInput(k: ItemClass, field: string): InputProcessor {
    if field == "sources" then UrlRecord
    else if field == "links" && k in {Person, SkupstinaMePerson} then UrlRecord
    else if field == "identifiers" && k in {Person, SkupstinaMePerson, Organization} then Identifier
    else if field == "other_names" && k in {Person, SkupstinaMePerson, Organization} then OtherName
    else if field == "image" && k in {Person, SkupstinaMePerson} then FullUrl
    else if field == "voter_id" && k == Vote then Identifier
    else if field == "creator_id" && k == Speech then Identifier
    else LoaderDefault
  }

  /** Whether the field's declared output processor is `MakeList()`. */
  predicate ListOutput(k: ItemClass, field: string) {
    field == "sources"
    || (field in {"links", "identifiers", "other_names"} && k in {Person, SkupstinaMePerson})
    || (field in {"identifiers", "other_names"} && k == Organization)
    || (field == "counts" && k == VoteEvent)
  }

  /** One value through an input processor (`MapCompose` applies it value by value). */
  function ApplyOne(p: InputProcessor, v: Value, context: Context, default: Value -> Value): Result<Value> {
    match p
    case LoaderDefault => Ok(default(v))
    case UrlRecord => Ok(Obj(map["url" := v]))
    case Identifier => Ok(Obj(ParseIdentifier(v, context)))
    case OtherName => Ok(Obj(ParseOtherNames(v, context)))
    case FullUrl =>
      if v.Str? then
        var u :- GetFullUrl(v.s, context);
        Ok(Str(u))
      else Err(AttributeError)
  }

  function ApplyInput(p: InputProcessor, values: seq<Value>, context: Context, default: Value -> Value): (r: Result<seq<Value>>)
    ensures r.Ok? ==> |r.value| == |values|
    ensures r.Ok? ==> forall i :: 0 <= i < |values| ==> ApplyOne(p, values[i], context, default) == Ok(r.value[i])
  {
    if values == [] then Ok([])
    else
      var first :- ApplyOne(p, values[0], context, default);
      var rest :- ApplyInput(p, values[1..], context, default);
      Ok([first] + rest)
  }

  /** `TakeFirst()`: the first value that is neither None nor the empty string. */
  function TakeFirst(values: seq<Value>): (r: Option<Value>)
    ensures r.Some? ==> r.value in values && r.value != Null && r.value != Str([])
    ensures r.None? <==> forall i :: 0 <= i < |values| ==> values[i] == Null || values[i] == Str([])
  {
    if values == [] then None
    else if values[0] != Null && values[0] != Str([]) then Some(values[0])
    else TakeFirst(values[1..])
  }

  /**
   * The value a loaded item carries for a field, from the values added to
   * it: the field's input processor, or the loader's default when the field
   * declares none, then `MakeList()` when the field declares it, `TakeFirst()`
   * (the output default of every loader here) otherwise. None means the
   * field stays unset.
   */
  function LoadField(k: ItemClass, field: string, values: seq<Value>, context: Context, default: Value -> Value): Result<Option<Value>> {
    var processed :- ApplyInput(FieldInput(k, field), values, context, default);
    if ListOutput(k, field) then Ok(Some(MakeList(Arr(processed))))
    else Ok(TakeFirst(processed))
  }

  /** `Identity()`, the input processor of an `ItemLoader` that declares no default. */
  function Identity(v: Value): Value { v }

  lemma {:induction false} IdentityInput(values: seq<Value>, context: Context)
    ensures ApplyInput(LoaderDefault, values, context, Identity) == Ok(values)
  {
    if values != [] {
      IdentityInput(values[1..], context);
      assert values == [values[0]] + values[1..];
    }
  }

  /** A field given one value: that value through the input processor, then the output processor. */
  lemma LoadSingle(k: ItemClass, field: string, v: Value, context: Context, default: Value -> Value)
    ensures var w := ApplyOne(FieldInput(k, field), v, context, default);
      LoadField(k, field, [v], context, default)
      == if w.Err? then Err(w.error)
         else if ListOutput(k, field) then Ok(Some(Arr([w.value])))
         else Ok(TakeFirst([w.value]))
  {
    var p := FieldInput(k, field);
    assert [v][1..] == [];
    assert ApplyInput(p, [], context, default) == Ok([]);
    var w := ApplyOne(p, v, context, default);
    if w.Ok? {
      assert [w.value] + [] == [w.value];
      assert ApplyInput(p, [v], context, default) == Ok([w.value]);
    }
  }

  /** The fields an item loader had values added to. */
  function AddedFields(added: seq<(string, seq<Value>)>): set<string> {
    set i | 0 <= i < |added| :: added[i].0
  }

  /**
   * `load_item()` after the given `add_value` calls (one entry per field,
   * in order): a field with no values is not registered; every other field
   * gets its output value, and a None output leaves the field as it was.
   */
  function LoadItem(k: ItemClass, item: Record, added: seq<(string, seq<Value>)>, context: Context, default: Value -> Value): (r: Result<Record>)
    ensures r.Ok? ==> r.value.Keys <= item.Keys + AddedFields(added)
    ensures r.Ok? ==> forall f :: f in item && f !in AddedFields(added) ==> f in r.value && r.value[f] == item[f]
    decreases |added|
  {
    if added == [] then Ok(item)
    else
      var (field, values) := added[0];
      var v :- LoadField(k, field, values, context, default);
      var next := if values != [] && v.Some? then item[field := v.value] else item;
      assert AddedFields(added) == {field} + AddedFields(added[1..]) by {
        assert forall i :: 1 <= i < |added| ==> added[i] == added[1..][i - 1];
      }
      LoadItem(k, next, added[1..], context, default)
  }

  /** Loading the first field's values, then the rest of the fields into the updated item. */
  lemma LoadItemStep(k: ItemClass, item: Record, field: string, values: seq<Value>, rest: seq<(string, seq<Value>)>,
                     context: Context, default: Value -> Value, v: Option<Value>)
    requires LoadField(k, field, values, context, default) == Ok(v)
    ensures LoadItem(k, item, [(field, values)] + rest, context, default)
      == LoadItem(k, if values != [] && v.Some? then item[field := v.value] else item, rest, context, default)
  {
    assert ([(field, values)] + rest)[1..] == rest;
  }

  /** Loading a single field: the item, with the field set when it loads to a value. */
  lemma LoadItemOne(k: ItemClass, item: Record, field: string, values: seq<Value>,
                    context: Context, default: Value -> Value, v: Option<Value>)
    requires LoadField(k, field, values, context, default) == Ok(v)
    ensures LoadItem(k, item, [(field, values)], context, default)
      == Ok(if values != [] && v.Some? then item[field := v.value] else item)
  {
    LoadItemStep(k, item, field, values, [], context, default, v);
    assert [(field, values)] + [] == [(field, values)];
  }

  /** Two fields set one after the other: the first loads to one value, the second to at most one. */
  lemma LoadTwo(k: ItemClass, item: Record, f1: string, vs1: seq<Value>, v1: Value, f2: string, vs2: seq<Value>, v2: Option<Value>,
                context: Context, default: Value -> Value)
    requires vs1 != [] && LoadField(k, f1, vs1, context, default) == Ok(Some(v1))
    requires vs2 != [] && LoadField(k, f2, vs2, context, default) == Ok(v2)
    ensures LoadItem(k, item, [(f1, vs1), (f2, vs2)], context, default)
      == Ok(if v2.Some? then item[f1 := v1][f2 := v2.value] else item[f1 := v1])
  {
    var last := [(f2, vs2)];
    assert [(f1, vs1), (f2, vs2)] == [(f1, vs1)] + last;
    LoadItemStep(k, item, f1, vs1, last, context, default, Some(v1));
    assert last == last + [];
    LoadItemStep(k, item[f1 := v1], f2, vs2, [], context, default, v2);
  }

  /** `{'url': x}` for each value. */
  function UrlRecords(values: seq<Value>): (r: seq<Value>)
    ensures |r| == |values|
    ensures forall i :: 0 <= i < |values| ==> r[i] == Obj(map["url" := values[i]])
  {
    if values == [] then [] else [Obj(map["url" := values[0]])] + UrlRecords(values[1..])
  }

  /** Every source and link becomes a `{'url': x}` record, and the field is always a list. */
  lemma {:induction false} UrlFieldsAreLists(k: ItemClass, field: string, values: seq<Value>, context: Context, default: Value -> Value)
    requires field == "sources" || (field == "links" && k in {Person, SkupstinaMePerson})
    ensures LoadField(k, field, values, context, default) == Ok(Some(Arr(UrlRecords(values))))
  {
    UrlRecordsApplied(values, context, default);
  }

  lemma {:induction false} UrlRecordsApplied(values: seq<Value>, context: Context, default: Value -> Value)
    ensures ApplyInput(UrlRecord, values, context, default) == Ok(UrlRecords(values))
  {
    if values != [] {
      UrlRecordsApplied(values[1..], context, default);
    }
  }

  /** `parse_identifier` on each value. */
  function IdentifierRecords(values: seq<Value>, context: Context): (r: seq<Value>)
    ensures |r| == |values|
    ensures forall i :: 0 <= i < |values| ==> r[i] == Obj(ParseIdentifier(values[i], context))
  {
    if values == [] then [] else [Obj(ParseIdentifier(values[0], context))] + IdentifierRecords(values[1..], context)
  }

  lemma {:induction false} IdentifierRecordsApplied(values: seq<Value>, context: Context, default: Value -> Value)
    ensures ApplyInput(Identifier, values, context, default) == Ok(IdentifierRecords(values, context))
  {
    if values != [] {
      IdentifierRecordsApplied(values[1..], context, default);
    }
  }

  /** Person and Organization identifiers go through `parse_identifier` and are always a list. */
  lemma IdentifiersAreLists(k: ItemClass, values: seq<Value>, context: Context, default: Value -> Value)
    requires k in {Person, SkupstinaMePerson, Organization}
    ensures LoadField(k, "identifiers", values, context, default) == Ok(Some(Arr(IdentifierRecords(values, context))))
  {
    IdentifierRecordsApplied(values, context, default);
  }

  /**
   * A vote's voter and a speech's creator go through `parse_identifier`; the
   * first value added is the one kept.
   */
  lemma ReferencesParsed(k: ItemClass, field: string, values: seq<Value>, context: Context, default: Value -> Value)
    requires (k == Vote && field == "voter_id") || (k == Speech && field == "creator_id")
    ensures values == [] ==> LoadField(k, field, values, context, default) == Ok(None)
    ensures values != [] ==> LoadField(k, field, values, context, default) == Ok(Some(Obj(ParseIdentifier(values[0], context))))
  {
    IdentifierRecordsApplied(values, context, default);
    var processed := IdentifierRecords(values, context);
    if values != [] {
      assert processed[0] == Obj(ParseIdentifier(values[0], context));
    }
  }

  /** A vote event's counts are always output as a list. */
  lemma CountsAreList(values: seq<Value>, context: Context, default: Value -> Value)
    ensures LoadField(VoteEvent, "counts", values, context, default).Ok?
    ensures LoadField(VoteEvent, "counts", values, context, default).value.Some?
    ensures LoadField(VoteEvent, "counts", values, context, default).value.value.Arr?
    ensures |LoadField(VoteEvent, "counts", values, context, default).value.value.items| == |values|
  {
    assert FieldInput(VoteEvent, "counts") == LoaderDefault;
    var r := ApplyInput(LoaderDefault, values, context, default);
    assert r.Ok? by {
      LoaderDefaultApplies(values, context, default);
    }
  }

  lemma {:induction false} LoaderDefaultApplies(values: seq<Value>, context: Context, default: Value -> Value)
    ensures ApplyInput(LoaderDefault, values, context, default).Ok?
  {
    if values != [] {
      LoaderDefaultApplies(values[1..], context, default);
    }
  }

  /**
   * How an exported item writes a field: SkupstinaMePerson's identifiers go
   * through `IdentifiersSerializer('skupstina.me/people')`; every other field
   * is written as it is.
   */
  function SerializeField(k: ItemClass, field: string, v: Value): (r: Value)
    ensures k == SkupstinaMePerson && field == "identifiers" ==>
      r.Arr? && |r.items| == 1 && r.items[0].Obj?
      && r.items[0].fields.Keys == {"identifier", "scheme"}
      && r.items[0].fields["scheme"] == Str("skupstina.me/people")
      && r.items[0].fields["identifier"] == v
    ensures !(k == SkupstinaMePerson && field == "identifiers") ==> r == v
  {
    if k == SkupstinaMePerson && field == "identifiers" then
      IdentifiersSerializer(Str("skupstina.me/people")).Serialize(v)
    else v
  }
}
