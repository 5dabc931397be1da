/** `WorkflowRequestStringInputRequest`: the input for a string variable of a
    Workflow, with both of its members required by the validator. */
module WorkflowRequestStringInputRequestCodec {
  import opened Wrappers
  import opened Json
  import opened Codecs

  /** The decoded record. `additionalProperties` holds the whole parsed input. */
  datatype WorkflowRequestStringInputRequest = WorkflowRequestStringInputRequest(name: Json, value: Json, additionalProperties: Json)

  /** `from_json`: `name` and `value` are read by name (absent reads as nil) and the
      whole input is kept; only a non-object input raises. */
  function FromJson(j: Json): (r: Result<WorkflowRequestStringInputRequest, Failure>)
    ensures r.Success? <==> j.JObject?
    ensures r.Failure? ==> r.error == NotAnObject
    ensures r.Success? ==> Reads(j, "name", r.value.name) && Reads(j, "value", r.value.value)
    ensures r.Success? ==> r.value.additionalProperties == j
  {
    if !j.JObject? then Failure(NotAnObject)
    else Success(WorkflowRequestStringInputRequest(Get(j, "name"), Get(j, "value"), j))
  }

  /** `to_json`: exactly `name` and `value`, nil as null. */
  function ToJson(x: WorkflowRequestStringInputRequest): (r: Json)
    ensures Keys(r) == ["name", "value"]
    ensures Reads(r, "name", x.name) && Reads(r, "value", x.value)
  {
    JObject([("name", x.name), ("value", x.value)])
  }

  /** `validate_raw`: both members must be Strings; nil is rejected. */
  function ValidateRaw(obj: Json): (r: Outcome<Failure>)
    ensures r.Pass? <==> obj.JObject? && Get(obj, "name").JString? && Get(obj, "value").JString?
    ensures obj.JObject? && !Get(obj, "name").JString? ==> r == Fail(FieldTypeMismatch("name"))
    ensures obj.JObject? && Get(obj, "name").JString? && !Get(obj, "value").JString?
      ==> r == Fail(FieldTypeMismatch("value"))
  {
    if !obj.JObject? then Fail(NotAnObject)
    else
      Required("name", Get(obj, "name"), AClass(StringClass))
        .Then(Required("value", Get(obj, "value"), AClass(StringClass)))
  }

  function AsCodec(): Codec<WorkflowRequestStringInputRequest> {
    Codec(FromJson, ToJson, ValidateRaw)
  }

  /** Decoding an encoded instance gives back `name` and `value`. */
  lemma RoundTrip(x: WorkflowRequestStringInputRequest)
    ensures FromJson(ToJson(x)) == Success(x.(additionalProperties := ToJson(x)))
  {
  }

  lemma StableCodec()
    ensures Stable(AsCodec())
  {
    forall x: WorkflowRequestStringInputRequest ensures ToJson(FromJson(ToJson(x)).value) == ToJson(x) {
      RoundTrip(x);
    }
  }

  /** A `value` that decode accepted as nil is rejected by the validator. */
  lemma NilValueDecodesButFailsValidation(j: Json)
    requires j.JObject? && Get(j, "name").JString? && "value" !in Keys(j)
    ensures FromJson(j).Success? && FromJson(j).value.value == JNull
    ensures ValidateRaw(j) == Fail(FieldTypeMismatch("value"))
  {
  }
}
