/** `ExecutionErrorVellumValue`: the ERROR variant of an execution value, whose
    `value` is a nested `VellumError` (its codec is a parameter: its source is not
    part of this model). */
module ExecutionErrorVellumValueCodec {
  import opened Wrappers
  import opened Json
  import opened Codecs

  /** The decoded record, over the nested error type `E`. `value` is nil (`None`) or
      a decoded error; `additionalProperties` holds the whole parsed input. */
  datatype ExecutionErrorVellumValue<E> = ExecutionErrorVellumValue(id: Json, name: Json, value: Option<E>, additionalProperties: Json)

  /** `from_json`: `id` and `name` are read by name; a null or absent `value` is nil,
      any other goes through the error decoder, whose error is the only one an
      object input can raise. */
  function FromJson<E>(j: Json, error: Codec<E>): (r: Result<ExecutionErrorVellumValue<E>, Failure>)
    ensures !j.JObject? ==> r == Failure(NotAnObject)
    ensures j.JObject? ==> (r.Success? <==> (Get(j, "value").JNull? || error.decode(Get(j, "value")).Success?))
    ensures j.JObject? && r.Failure? ==> r == Failure(error.decode(Get(j, "value")).error)
    ensures r.Success? ==> (Reads(j, "id", r.value.id) && Reads(j, "name", r.value.name)
      && r.value.additionalProperties == j)
    ensures r.Success? ==> (r.value.value.None? <==> Get(j, "value").JNull?)
    ensures r.Success? && r.value.value.Some? ==> error.decode(Get(j, "value")) == Success(r.value.value.value)
  {
    if !j.JObject? then Failure(NotAnObject)
    else
      var value :- DecodeNullable(Get(j, "value"), error.decode);
      Success(ExecutionErrorVellumValue(Get(j, "id"), Get(j, "name"), value, j))
  }

  /** `to_json`: exactly `id`, `name` and `value`; a nil `value` is written as null,
      an error as its own encoding. */
  function ToJson<E>(x: ExecutionErrorVellumValue<E>, error: Codec<E>): (r: Json)
    ensures Keys(r) == ["id", "name", "value"]
    ensures Reads(r, "id", x.id) && Reads(r, "name", x.name)
    ensures x.value.None? ==> Reads(r, "value", JNull)
    ensures x.value.Some? ==> Reads(r, "value", error.encode(x.value.value))
  {
    JObject([("id", x.id), ("name", x.name), ("value", EncodeNullable(x.value, error.encode))])
  }

  /** `validate_raw`: `id` and `name` must be Strings; `value` is handed to the error
      validator only when it is not nil. */
  function ValidateRaw<E>(obj: Json, error: Codec<E>): (r: Outcome<Failure>)
    ensures r.Pass? <==> (obj.JObject? && Get(obj, "id").JString? && Get(obj, "name").JString?
      && (Get(obj, "value").JNull? || error.validate(Get(obj, "value")).Pass?))
    ensures obj.JObject? && !Get(obj, "id").JString? ==> r == Fail(FieldTypeMismatch("id"))
    ensures obj.JObject? && Get(obj, "id").JString? && !Get(obj, "name").JString?
      ==> r == Fail(FieldTypeMismatch("name"))
    ensures obj.JObject? && Get(obj, "id").JString? && Get(obj, "name").JString? && !Get(obj, "value").JNull?
      ==> r == error.validate(Get(obj, "value"))
    ensures !obj.JObject? ==> r == Fail(NotAnObject)
  {
    if !obj.JObject? then Fail(NotAnObject)
    else
      Required("id", Get(obj, "id"), AClass(StringClass))
        .Then(Required("name", Get(obj, "name"), AClass(StringClass)))
        .Then(ValidateNullable(Get(obj, "value"), error.validate))
  }

  function AsCodec<E>(error: Codec<E>): Codec<ExecutionErrorVellumValue<E>> {
    Codec(j => FromJson(j, error), x => ToJson(x, error), obj => ValidateRaw(obj, error))
  }

  /** With a round-tripping error codec, decoding an encoded record gives back `id`
      and `name` and an error that encodes as before. */
  lemma StableCodec<E(!new)>(error: Codec<E>)
    requires Stable(error)
    ensures Stable(AsCodec(error))
  {
    forall x: ExecutionErrorVellumValue<E>
      ensures FromJson(ToJson(x, error), error).Success?
      ensures ToJson(FromJson(ToJson(x, error), error).value, error) == ToJson(x, error)
    {
      DecodeNullableStable(error, x.value);
    }
  }

  /** A null or absent `value` neither reaches the error decoder nor the error
      validator. */
  lemma NilValueSkipsNestedCodec<E>(j: Json, error: Codec<E>)
    requires j.JObject? && Get(j, "value").JNull?
    ensures FromJson(j, error).Success? && FromJson(j, error).value.value.None?
    ensures ValidateRaw(j, error).Pass? <==> Get(j, "id").JString? && Get(j, "name").JString?
  {
  }
}
