/**
 * The small item helpers: the input processors that turn a scraped value
 * into an identifier or an alternative name, and the output processor that
 * makes a field a list.
 */
module Utils {
  import opened Records

  /** The keyword arguments an item loader was created with (`scheme`, `response_url`, ...). */
  type Context = map<string, Value>

  /**
   * `parse_identifier`: the value as an identifier record, under the
   * loader's scheme when the loader was given one.
   */
  function ParseIdentifier(identifier: Value, context: Context): (r: Record)
    ensures "identifier" in r && r["identifier"] == identifier
    ensures "scheme" in r <==> "scheme" in context
    ensures "scheme" in context ==> r["scheme"] == context["scheme"]
    ensures r.Keys <= {"identifier", "scheme"}
  {
    var r := map["identifier" := identifier];
    if "scheme" in context then r["scheme" := context["scheme"]] else r
  }

  /** `parse_other_names`: the value as an alternative-name record. */
  function ParseOtherNames(value: Value, context: Context): (r: Record)
    ensures r.Keys == {"name"} && r["name"] == value
  {
    map["name" := value]
  }

  /** `MakeList()(values)`: a list stays as it is, anything else is wrapped in one. */
  function MakeList(values: Value): (r: Value)
    ensures r.Arr?
    ensures values.Arr? ==> r == values
    ensures !values.Arr? ==> r.items == [values]
  {
    if values.Arr? then values else Arr([values])
  }

  /** Making a list of a list changes nothing, so the processor is idempotent. */
  lemma MakeListIdempotent(v: Value)
    ensures MakeList(MakeList(v)) == MakeList(v)
  {
  }
}
