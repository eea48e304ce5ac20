/** The serializer that writes a field as a one-element identifier list. */
module Serializers {
  import opened Records

  /** `IdentifiersSerializer(scheme)`: the scheme is fixed when it is created. */
  datatype IdentifiersSerializer = IdentifiersSerializer(scheme: Value) {
    /** `__call__(value)`: `[{'identifier': value, 'scheme': scheme}]`. */
    function Serialize(value: Value): (r: Value)
      ensures r.Arr? && |r.items| == 1
      ensures r.items[0].Obj? && r.items[0].fields.Keys == {"identifier", "scheme"}
      ensures r.items[0].fields["identifier"] == value
      ensures r.items[0].fields["scheme"] == scheme
    {
      Arr([Obj(map["identifier" := value, "scheme" := scheme])])
    }
  }

  /** Two values written by the same serializer carry the same scheme. */
  lemma SerializedShareScheme(ser: IdentifiersSerializer, a: Value, b: Value)
    ensures ser.Serialize(a).items[0].fields["scheme"] == ser.Serialize(b).items[0].fields["scheme"]
  {
  }
}
