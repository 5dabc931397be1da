/** `WorkflowOutputImage`: an image output of a Workflow execution, whose `value`
    is a nested `VellumImage` (its codec is a parameter: its source is not part of
    this model). */
module WorkflowOutputImageCodec {
  import opened Wrappers
  import opened Json
  import opened Codecs

  /** The decoded record, over the nested image type `I`. `value` is nil (`None`) or
      a decoded image; `additionalProperties` holds the whole parsed input. */
  datatype WorkflowOutputImage<I> = WorkflowOutputImage(id: Json, name: Json, value: Option<I>, additionalProperties: Json)

  /** `from_json`: `id` and `name` are read by name; a null or absent `value` is nil,
      any other goes through the image decoder, whose error is the only one an
      object input can raise. */
  function FromJson<I>(j: Json, image: Codec<I>): (r: Result<WorkflowOutputImage<I>, Failure>)
    ensures !j.JObject? ==> r == Failure(NotAnObject)
    ensures j.JObject? ==> (r.Success? <==> (Get(j, "value").JNull? || image.decode(Get(j, "value")).Success?))
    ensures j.JObject? && r.Failure? ==> r == Failure(image.decode(Get(j, "value")).error)
    ensures r.Success? ==> (Reads(j, "id", r.value.id) && Reads(j, "name", r.value.name)
      && r.value.additionalProperties == j)
    ensures r.Success? ==> (r.value.value.None? <==> Get(j, "value").JNull?)
    ensures r.Success? && r.value.value.Some? ==> image.decode(Get(j, "value")) == Success(r.value.value.value)
  {
    if !j.JObject? then Failure(NotAnObject)
    else
      var value :- DecodeNullable(Get(j, "value"), image.decode);
      Success(WorkflowOutputImage(Get(j, "id"), Get(j, "name"), value, j))
  }

  /** `to_json`: exactly `id`, `name` and `value`; a nil `value` is written as null,
      an image as its own encoding. */
  function ToJson<I>(x: WorkflowOutputImage<I>, image: Codec<I>): (r: Json)
    ensures Keys(r) == ["id", "name", "value"]
    ensures Reads(r, "id", x.id) && Reads(r, "name", x.name)
    ensures x.value.None? ==> Reads(r, "value", JNull)
    ensures x.value.Some? ==> Reads(r, "value", image.encode(x.value.value))
  {
    JObject([("id", x.id), ("name", x.name), ("value", EncodeNullable(x.value, image.encode))])
  }

  /** `validate_raw`: `id` and `name` must be Strings; `value` is handed to the image
      validator only when it is not nil. */
  function ValidateRaw<I>(obj: Json, image: Codec<I>): (r: Outcome<Failure>)
    ensures r.Pass? <==> (obj.JObject? && Get(obj, "id").JString? && Get(obj, "name").JString?
      && (Get(obj, "value").JNull? || image.validate(Get(obj, "value")).Pass?))
    ensures obj.JObject? && !Get(obj, "id").JString? ==> r == Fail(FieldTypeMismatch("id"))
    ensures obj.JObject? && Get(obj, "id").JString? && !Get(obj, "name").JString?
      ==> r == Fail(FieldTypeMismatch("name"))
    ensures obj.JObject? && Get(obj, "id").JString? && Get(obj, "name").JString? && !Get(obj, "value").JNull?
      ==> r == image.validate(Get(obj, "value"))
    ensures !obj.JObject? ==> r == Fail(NotAnObject)
  {
    if !obj.JObject? then Fail(NotAnObject)
    else
      Required("id", Get(obj, "id"), AClass(StringClass))
        .Then(Required("name", Get(obj, "name"), AClass(StringClass)))
        .Then(ValidateNullable(Get(obj, "value"), image.validate))
  }

  function AsCodec<I>(image: Codec<I>): Codec<WorkflowOutputImage<I>> {
    Codec(j => FromJson(j, image), x => ToJson(x, image), obj => ValidateRaw(obj, image))
  }

  /** With a round-tripping image codec, decoding an encoded record gives back `id`
      and `name` and an image that encodes as before. */
  lemma StableCodec<I(!new)>(image: Codec<I>)
    requires Stable(image)
    ensures Stable(AsCodec(image))
  {
    forall x: WorkflowOutputImage<I>
      ensures FromJson(ToJson(x, image), image).Success?
      ensures ToJson(FromJson(ToJson(x, image), image).value, image) == ToJson(x, image)
    {
      DecodeNullableStable(image, x.value);
    }
  }

  /** A null or absent `value` neither reaches the image decoder nor the image
      validator, whatever those would do with nil. */
  lemma NilValueSkipsNestedCodec<I>(j: Json, image: Codec<I>)
    requires j.JObject? && Get(j, "value").JNull?
    ensures FromJson(j, image).Success? && FromJson(j, image).value.value.None?
    ensures ValidateRaw(j, image).Pass? <==> Get(j, "id").JString? && Get(j, "name").JString?
  {
  }
}
