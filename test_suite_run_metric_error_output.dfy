/** `TestSuiteRunMetricErrorOutput`: the output of a test-suite metric of type
    ERROR, whose `value` is a nested `VellumError` (its codec is a parameter: its
    source is not part of this model). Decode lets `value` be null; the validator
    does not. */
module TestSuiteRunMetricErrorOutputCodec {
  import opened Wrappers
  import opened Json
  import opened Codecs

  /** The decoded record, over the nested error type `E`. */
  datatype TestSuiteRunMetricErrorOutput<E> = TestSuiteRunMetricErrorOutput(value: Option<E>, name: Json, additionalProperties: Json)

  /** `from_json`: a null or absent `value` is nil, any other goes through the error
      decoder; `name` is read by name. */
  function FromJson<E>(j: Json, error: Codec<E>): (r: Result<TestSuiteRunMetricErrorOutput<E>, Failure>)
    ensures !j.JObject? ==> r == Failure(NotAnObject)
    ensures j.JObject? ==> (r.Success? <==> (Get(j, "value").JNull? || error.decode(Get(j, "value")).Success?))
    ensures j.JObject? && r.Failure? ==> r == Failure(error.decode(Get(j, "value")).error)
    ensures r.Success? ==> Reads(j, "name", r.value.name) && r.value.additionalProperties == j
    ensures r.Success? ==> (r.value.value.None? <==> Get(j, "value").JNull?)
    ensures r.Success? && r.value.value.Some? ==> error.decode(Get(j, "value")) == Success(r.value.value.value)
  {
    if !j.JObject? then Failure(NotAnObject)
    else
      var value :- DecodeNullable(Get(j, "value"), error.decode);
      Success(TestSuiteRunMetricErrorOutput(value, Get(j, "name"), j))
  }

  /** `to_json`: exactly `value` and `name`, in that order, nil as null. */
  function ToJson<E>(x: TestSuiteRunMetricErrorOutput<E>, error: Codec<E>): (r: Json)
    ensures Keys(r) == ["value", "name"]
    ensures Reads(r, "name", x.name)
    ensures x.value.None? ==> Reads(r, "value", JNull)
    ensures x.value.Some? ==> Reads(r, "value", error.encode(x.value.value))
  {
    JObject([("value", EncodeNullable(x.value, error.encode)), ("name", x.name)])
  }

  /** `validate_raw`: `value` goes to the error validator with no nil guard, then
      `name` must be a String. */
  function ValidateRaw<E>(obj: Json, error: Codec<E>): (r: Outcome<Failure>)
    ensures r.Pass? <==> (obj.JObject? && error.validate(Get(obj, "value")).Pass? && Get(obj, "name").JString?)
    ensures obj.JObject? && error.validate(Get(obj, "value")).Fail? ==> r == error.validate(Get(obj, "value"))
    ensures obj.JObject? && error.validate(Get(obj, "value")).Pass? && !Get(obj, "name").JString?
      ==> r == Fail(FieldTypeMismatch("name"))
  {
    if !obj.JObject? then Fail(NotAnObject)
    else
      error.validate(Get(obj, "value"))
        .Then(Required("name", Get(obj, "name"), AClass(StringClass)))
  }

  function AsCodec<E>(error: Codec<E>): Codec<TestSuiteRunMetricErrorOutput<E>> {
    Codec(j => FromJson(j, error), x => ToJson(x, error), obj => ValidateRaw(obj, error))
  }

  /** With a round-tripping error codec, decoding an encoded record gives back `name`
      and an error that encodes as before. */
  lemma StableCodec<E(!new)>(error: Codec<E>)
    requires Stable(error)
    ensures Stable(AsCodec(error))
  {
    forall x: TestSuiteRunMetricErrorOutput<E>
      ensures FromJson(ToJson(x, error), error).Success?
      ensures ToJson(FromJson(ToJson(x, error), error).value, error) == ToJson(x, error)
    {
      DecodeNullableStable(error, x.value);
    }
  }

  /** A null or absent `value` decodes to nil without touching the error decoder, but
      the validator still hands nil to the error validator: whenever that validator
      rejects nil (as one that reads a member of its argument does), validation fails
      on an input that decoded. */
  lemma NilValueDecodesButIsStillValidated<E>(j: Json, error: Codec<E>)
    requires j.JObject? && Get(j, "value").JNull?
    ensures FromJson(j, error).Success? && FromJson(j, error).value.value.None?
    ensures error.validate(JNull).Fail? ==> ValidateRaw(j, error) == error.validate(JNull)
  {
  }
}
