/** `ExecutionChatHistoryVellumValue`: the CHAT_HISTORY variant of an execution
    value, whose `value` is an array of nested `ChatMessage`s (their codec is a
    parameter: its source is not part of this model). */
module ExecutionChatHistoryVellumValueCodec {
  import opened Wrappers
  import opened Json
  import opened Codecs

  /** The decoded record, over the nested message type `C`. `value` is `None` only
      for a record built with the constructor's default (nil); decode always sets it. */
  datatype ExecutionChatHistoryVellumValue<C> = ExecutionChatHistoryVellumValue(id: Json, name: Json, value: Option<seq<C>>, additionalProperties: Json)

  /** `from_json`: `id` and `name` are read by name; `value` is mapped element by
      element through the message decoder with no nil guard, so a null or absent
      `value` raises. */
  function FromJson<C>(j: Json, chatMessage: Codec<C>): (r: Result<ExecutionChatHistoryVellumValue<C>, Failure>)
    ensures !j.JObject? ==> r == Failure(NotAnObject)
    ensures j.JObject? && Get(j, "value").JNull? ==> r == Failure(NoMethod("map"))
    ensures j.JObject? && Get(j, "value").JArray? ==> (r.Success? <==>
      forall i :: 0 <= i < |Get(j, "value").items| ==> chatMessage.decode(Get(j, "value").items[i]).Success?)
    ensures r.Success? ==> (Reads(j, "id", r.value.id) && Reads(j, "name", r.value.name)
      && r.value.additionalProperties == j)
    ensures r.Success? ==> r.value.value.Some? && MapDecodesTo(Get(j, "value"), chatMessage.decode, r.value.value.value)
  {
    if !j.JObject? then Failure(NotAnObject)
    else
      var value :- DecodeMapped(Get(j, "value"), chatMessage.decode);
      Success(ExecutionChatHistoryVellumValue(Get(j, "id"), Get(j, "name"), Some(value), j))
  }

  /** `to_json`: exactly `id`, `name` and `value`; `value` as the array of the
      messages' encodings, in order, or null when nil. */
  function ToJson<C>(x: ExecutionChatHistoryVellumValue<C>, chatMessage: Codec<C>): (r: Json)
    ensures Keys(r) == ["id", "name", "value"]
    ensures Reads(r, "id", x.id) && Reads(r, "name", x.name)
    ensures x.value.None? ==> Reads(r, "value", JNull)
    ensures x.value.Some? ==> Reads(r, "value", JArray(EncodeEach(x.value.value, chatMessage.encode)))
  {
    JObject([("id", x.id), ("name", x.name), ("value", EncodeArray(x.value, chatMessage.encode))])
  }

  /** `validate_raw`: `id` and `name` must be Strings; `value` may be nil, otherwise
      it must be an Array, whose elements are not checked. */
  function ValidateRaw(obj: Json): (r: Outcome<Failure>)
    ensures r.Pass? <==> (obj.JObject? && Get(obj, "id").JString? && Get(obj, "name").JString?
      && (Get(obj, "value").JNull? || Get(obj, "value").JArray?))
    ensures obj.JObject? && !Get(obj, "id").JString? ==> r == Fail(FieldTypeMismatch("id"))
    ensures obj.JObject? && Get(obj, "id").JString? && !Get(obj, "name").JString?
      ==> r == Fail(FieldTypeMismatch("name"))
    ensures obj.JObject? && Get(obj, "id").JString? && Get(obj, "name").JString?
      && !(Get(obj, "value").JNull? || Get(obj, "value").JArray?)
      ==> r == Fail(FieldTypeMismatch("value"))
    ensures !obj.JObject? ==> r == Fail(NotAnObject)
  {
    if !obj.JObject? then Fail(NotAnObject)
    else
      Required("id", Get(obj, "id"), AClass(StringClass))
        .Then(Required("name", Get(obj, "name"), AClass(StringClass)))
        .Then(Optional("value", Get(obj, "value"), AClass(ArrayClass)))
  }

  /** With a round-tripping message codec, a record whose `value` is an array decodes
      from its own encoding to the same `id` and `name` and to messages that encode as
      before, in the same number and order. */
  lemma RoundTrip<C(!new)>(x: ExecutionChatHistoryVellumValue<C>, chatMessage: Codec<C>)
    requires Stable(chatMessage) && x.value.Some?
    ensures FromJson(ToJson(x, chatMessage), chatMessage).Success?
    ensures ToJson(FromJson(ToJson(x, chatMessage), chatMessage).value, chatMessage) == ToJson(x, chatMessage)
  {
    DecodeMappedStable(chatMessage, x.value.value);
  }

  /** A record built with `value` left nil encodes, but its encoding does not decode;
      and an object without `value` passes the validator yet fails to decode. */
  lemma NilValueEncodesButDoesNotDecode<C>(x: ExecutionChatHistoryVellumValue<C>, chatMessage: Codec<C>, j: Json)
    requires x.value.None?
    requires j.JObject? && Get(j, "id").JString? && Get(j, "name").JString? && "value" !in Keys(j)
    ensures FromJson(ToJson(x, chatMessage), chatMessage) == Failure(NoMethod("map"))
    ensures ValidateRaw(j).Pass? && FromJson(j, chatMessage) == Failure(NoMethod("map"))
  {
  }
}
