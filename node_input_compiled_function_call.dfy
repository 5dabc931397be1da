/** `NodeInputCompiledFunctionCall`: a compiled node input whose `value` is a
    nested `FunctionCall` (its codec is a parameter: its source is not part of this
    model). */
module NodeInputCompiledFunctionCallCodec {
  import opened Wrappers
  import opened Json
  import opened Codecs

  /** The decoded record, over the nested function-call type `F`. */
  datatype NodeInputCompiledFunctionCall<F> = NodeInputCompiledFunctionCall(nodeInputId: Json, key: Json, value: Option<F>, additionalProperties: Json)

  /** `from_json`: `node_input_id` and `key` are read by name; a null or absent
      `value` is nil, any other goes through the function-call decoder. */
  function FromJson<F>(j: Json, functionCall: Codec<F>): (r: Result<NodeInputCompiledFunctionCall<F>, Failure>)
    ensures !j.JObject? ==> r == Failure(NotAnObject)
    ensures j.JObject? ==> (r.Success? <==> (Get(j, "value").JNull? || functionCall.decode(Get(j, "value")).Success?))
    ensures j.JObject? && r.Failure? ==> r == Failure(functionCall.decode(Get(j, "value")).error)
    ensures r.Success? ==> (Reads(j, "node_input_id", r.value.nodeInputId) && Reads(j, "key", r.value.key)
      && r.value.additionalProperties == j)
    ensures r.Success? ==> (r.value.value.None? <==> Get(j, "value").JNull?)
    ensures r.Success? && r.value.value.Some? ==> functionCall.decode(Get(j, "value")) == Success(r.value.value.value)
  {
    if !j.JObject? then Failure(NotAnObject)
    else
      var value :- DecodeNullable(Get(j, "value"), functionCall.decode);
      Success(NodeInputCompiledFunctionCall(Get(j, "node_input_id"), Get(j, "key"), value, j))
  }

  /** `to_json`: exactly `node_input_id`, `key` and `value`, nil as null. */
  function ToJson<F>(x: NodeInputCompiledFunctionCall<F>, functionCall: Codec<F>): (r: Json)
    ensures Keys(r) == ["node_input_id", "key", "value"]
    ensures Reads(r, "node_input_id", x.nodeInputId) && Reads(r, "key", x.key)
    ensures x.value.None? ==> Reads(r, "value", JNull)
    ensures x.value.Some? ==> Reads(r, "value", functionCall.encode(x.value.value))
  {
    JObject([("node_input_id", x.nodeInputId), ("key", x.key), ("value", EncodeNullable(x.value, functionCall.encode))])
  }

  /** `validate_raw`: `node_input_id` and `key` must be Strings; `value` is handed to
      the function-call validator only when it is not nil. */
  function ValidateRaw<F>(obj: Json, functionCall: Codec<F>): (r: Outcome<Failure>)
    ensures r.Pass? <==> (obj.JObject? && Get(obj, "node_input_id").JString? && Get(obj, "key").JString?
      && (Get(obj, "value").JNull? || functionCall.validate(Get(obj, "value")).Pass?))
    ensures obj.JObject? && !Get(obj, "node_input_id").JString? ==> r == Fail(FieldTypeMismatch("node_input_id"))
    ensures obj.JObject? && Get(obj, "node_input_id").JString? && !Get(obj, "key").JString?
      ==> r == Fail(FieldTypeMismatch("key"))
    ensures obj.JObject? && Get(obj, "node_input_id").JString? && Get(obj, "key").JString? && !Get(obj, "value").JNull?
      ==> r == functionCall.validate(Get(obj, "value"))
    ensures !obj.JObject? ==> r == Fail(NotAnObject)
  {
    if !obj.JObject? then Fail(NotAnObject)
    else
      Required("node_input_id", Get(obj, "node_input_id"), AClass(StringClass))
        .Then(Required("key", Get(obj, "key"), AClass(StringClass)))
        .Then(ValidateNullable(Get(obj, "value"), functionCall.validate))
  }

  function AsCodec<F>(functionCall: Codec<F>): Codec<NodeInputCompiledFunctionCall<F>> {
    Codec(j => FromJson(j, functionCall), x => ToJson(x, functionCall), obj => ValidateRaw(obj, functionCall))
  }

  /** With a round-tripping function-call codec, decoding an encoded record gives back
      `node_input_id` and `key` and a function call that encodes as before. */
  lemma StableCodec<F(!new)>(functionCall: Codec<F>)
    requires Stable(functionCall)
    ensures Stable(AsCodec(functionCall))
  {
    forall x: NodeInputCompiledFunctionCall<F>
      ensures FromJson(ToJson(x, functionCall), functionCall).Success?
      ensures ToJson(FromJson(ToJson(x, functionCall), functionCall).value, functionCall) == ToJson(x, functionCall)
    {
      DecodeNullableStable(functionCall, x.value);
    }
  }

  /** A null or absent `value` neither reaches the function-call decoder nor its
      validator. */
  lemma NilValueSkipsNestedCodec<F>(j: Json, functionCall: Codec<F>)
    requires j.JObject? && Get(j, "value").JNull?
    ensures FromJson(j, functionCall).Success? && FromJson(j, functionCall).value.value.None?
    ensures ValidateRaw(j, functionCall).Pass? <==> Get(j, "node_input_id").JString? && Get(j, "key").JString?
  {
  }
}
