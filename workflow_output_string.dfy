/** `WorkflowOutputString`: a string output of a Workflow execution, with three
    members read and written under their own names. */
module WorkflowOutputStringCodec {
  import opened Wrappers
  import opened Json
  import opened Codecs

  /** The decoded record. `additionalProperties` holds the whole parsed input. */
  datatype WorkflowOutputString = WorkflowOutputString(id: Json, name: Json, value: Json, additionalProperties: Json)

  /** `from_json`: each member is read by name (absent reads as nil), nothing is
      checked, and the whole input is kept; only a non-object input raises. */
  function FromJson(j: Json): (r: Result<WorkflowOutputString, Failure>)
    ensures r.Success? <==> j.JObject?
    ensures r.Failure? ==> r.error == NotAnObject
    ensures r.Success? ==> (Reads(j, "id", r.value.id) && Reads(j, "name", r.value.name)
      && Reads(j, "value", r.value.value))
    ensures r.Success? ==> r.value.additionalProperties == j
  {
    if !j.JObject? then Failure(NotAnObject)
    else Success(WorkflowOutputString(Get(j, "id"), Get(j, "name"), Get(j, "value"), j))
  }

  /** `to_json`: exactly the three declared members, nil as null; the captured input
      is not written back. */
  function ToJson(x: WorkflowOutputString): (r: Json)
    ensures Keys(r) == ["id", "name", "value"]
    ensures Reads(r, "id", x.id) && Reads(r, "name", x.name) && Reads(r, "value", x.value)
  {
    JObject([("id", x.id), ("name", x.name), ("value", x.value)])
  }

  /** `validate_raw`: `id` and `name` must be Strings (nil included in the rejection),
      `value` nil or a String; the first failing field is named. */
  function ValidateRaw(obj: Json): (r: Outcome<Failure>)
    ensures r.Pass? <==> (obj.JObject? && Get(obj, "id").JString? && Get(obj, "name").JString?
      && (Get(obj, "value").JNull? || Get(obj, "value").JString?))
    ensures obj.JObject? && !Get(obj, "id").JString? ==> r == Fail(FieldTypeMismatch("id"))
    ensures obj.JObject? && Get(obj, "id").JString? && !Get(obj, "name").JString?
      ==> r == Fail(FieldTypeMismatch("name"))
    ensures obj.JObject? && Get(obj, "id").JString? && Get(obj, "name").JString?
      && !(Get(obj, "value").JNull? || Get(obj, "value").JString?)
      ==> r == Fail(FieldTypeMismatch("value"))
    ensures !obj.JObject? ==> r == Fail(NotAnObject)
  {
    if !obj.JObject? then Fail(NotAnObject)
    else
      Required("id", Get(obj, "id"), AClass(StringClass))
        .Then(Required("name", Get(obj, "name"), AClass(StringClass)))
        .Then(Optional("value", Get(obj, "value"), AClass(StringClass)))
  }

  function AsCodec(): Codec<WorkflowOutputString> {
    Codec(FromJson, ToJson, ValidateRaw)
  }

  /** Decoding an encoded instance gives back `id`, `name` and `value`; only the
      captured input differs (it becomes the encoding itself). */
  lemma RoundTrip(x: WorkflowOutputString)
    ensures FromJson(ToJson(x)) == Success(x.(additionalProperties := ToJson(x)))
  {
  }

  lemma StableCodec()
    ensures Stable(AsCodec())
  {
    forall x: WorkflowOutputString ensures ToJson(FromJson(ToJson(x)).value) == ToJson(x) {
      RoundTrip(x);
    }
  }

  /** Decode is lenient where the validator is strict: an object without `id` decodes
      (with `id` nil) but is rejected by `validate_raw`, which names `id`; a missing
      `value` is accepted by both. */
  lemma DecodeLenientValidateStrict(j: Json)
    requires j.JObject? && "id" !in Keys(j)
    ensures FromJson(j).Success? && FromJson(j).value.id == JNull
    ensures ValidateRaw(j) == Fail(FieldTypeMismatch("id"))
  {
  }
}
