/** `NumberVariableValue`: a single numeric member whose validator demands a Float. */
module NumberVariableValueCodec {
  import opened Wrappers
  import opened Json
  import opened Codecs

  /** The decoded record. `additionalProperties` holds the whole parsed input. */
  datatype NumberVariableValue = NumberVariableValue(value: Json, additionalProperties: Json)

  /** `from_json`: `value` is read by name (absent reads as nil) and the whole input
      is kept; only a non-object input raises. */
  function FromJson(j: Json): (r: Result<NumberVariableValue, Failure>)
    ensures r.Success? <==> j.JObject?
    ensures r.Failure? ==> r.error == NotAnObject
    ensures r.Success? ==> Reads(j, "value", r.value.value) && r.value.additionalProperties == j
  {
    if !j.JObject? then Failure(NotAnObject)
    else Success(NumberVariableValue(Get(j, "value"), j))
  }

  /** `to_json`: exactly the one member `value`, nil as null. */
  function ToJson(x: NumberVariableValue): (r: Json)
    ensures Keys(r) == ["value"]
    ensures Reads(r, "value", x.value)
  {
    JObject([("value", x.value)])
  }

  /** `validate_raw`: nil passes; anything else must be a Float, so a JSON number
      written without a fraction (parsed as an Integer) is rejected. */
  function ValidateRaw(obj: Json): (r: Outcome<Failure>)
    ensures r.Pass? <==> obj.JObject? && (Get(obj, "value").JNull? || Get(obj, "value").JFloat?)
    ensures obj.JObject? && r.Fail? ==> r.error == FieldTypeMismatch("value")
  {
    if !obj.JObject? then Fail(NotAnObject)
    else Optional("value", Get(obj, "value"), AClass(FloatClass))
  }

  function AsCodec(): Codec<NumberVariableValue> {
    Codec(FromJson, ToJson, ValidateRaw)
  }

  /** Decoding an encoded instance gives back `value`. */
  lemma RoundTrip(x: NumberVariableValue)
    ensures FromJson(ToJson(x)) == Success(x.(additionalProperties := ToJson(x)))
  {
  }

  lemma StableCodec()
    ensures Stable(AsCodec())
  {
    forall x: NumberVariableValue ensures ToJson(FromJson(ToJson(x)).value) == ToJson(x) {
      RoundTrip(x);
    }
  }

  /** `{"value": 3}` decodes, and re-encodes to itself, yet fails validation naming
      `value`; `{"value": 3.5}` passes; a String is rejected. */
  lemma IntegralNumberRejected(n: int, f: real, s: string)
    ensures FromJson(JObject([("value", JInt(n))])).Success?
    ensures ValidateRaw(JObject([("value", JInt(n))])) == Fail(FieldTypeMismatch("value"))
    ensures ValidateRaw(JObject([("value", JFloat(f))])) == Pass
    ensures ValidateRaw(JObject([("value", JString(s))])) == Fail(FieldTypeMismatch("value"))
  {
  }
}
