/** `TestSuiteRunExecutionSearchResultsOutput`: a test-suite execution output whose
    `value` is an array of nested `SearchResult`s (their codec is a parameter: its
    source is not part of this model). */
module TestSuiteRunExecutionSearchResultsOutputCodec {
  import opened Wrappers
  import opened Json
  import opened Codecs

  /** The decoded record, over the nested result type `S`. `value` is `None` only for
      a record built with the constructor's default (nil). */
  datatype TestSuiteRunExecutionSearchResultsOutput<S> = TestSuiteRunExecutionSearchResultsOutput(outputVariableId: Json, value: Option<seq<S>>, additionalProperties: Json)

  /** `from_json`: `output_variable_id` is read by name; `value` is mapped element by
      element through the search-result decoder with no nil guard. */
  function FromJson<S>(j: Json, searchResult: Codec<S>): (r: Result<TestSuiteRunExecutionSearchResultsOutput<S>, Failure>)
    ensures !j.JObject? ==> r == Failure(NotAnObject)
    ensures j.JObject? && Get(j, "value").JNull? ==> r == Failure(NoMethod("map"))
    ensures j.JObject? && Get(j, "value").JArray? ==> (r.Success? <==>
      forall i :: 0 <= i < |Get(j, "value").items| ==> searchResult.decode(Get(j, "value").items[i]).Success?)
    ensures r.Success? ==> Reads(j, "output_variable_id", r.value.outputVariableId) && r.value.additionalProperties == j
    ensures r.Success? ==> r.value.value.Some? && MapDecodesTo(Get(j, "value"), searchResult.decode, r.value.value.value)
  {
    if !j.JObject? then Failure(NotAnObject)
    else
      var value :- DecodeMapped(Get(j, "value"), searchResult.decode);
      Success(TestSuiteRunExecutionSearchResultsOutput(Get(j, "output_variable_id"), Some(value), j))
  }

  /** `to_json`: exactly `output_variable_id` and `value`. */
  function ToJson<S>(x: TestSuiteRunExecutionSearchResultsOutput<S>, searchResult: Codec<S>): (r: Json)
    ensures Keys(r) == ["output_variable_id", "value"]
    ensures Reads(r, "output_variable_id", x.outputVariableId)
    ensures x.value.None? ==> Reads(r, "value", JNull)
    ensures x.value.Some? ==> Reads(r, "value", JArray(EncodeEach(x.value.value, searchResult.encode)))
  {
    JObject([("output_variable_id", x.outputVariableId), ("value", EncodeArray(x.value, searchResult.encode))])
  }

  /** `validate_raw`: `output_variable_id` must be a String; `value` may be nil,
      otherwise it must be an Array, whose elements are not checked. */
  function ValidateRaw(obj: Json): (r: Outcome<Failure>)
    ensures r.Pass? <==> (obj.JObject? && Get(obj, "output_variable_id").JString?
      && (Get(obj, "value").JNull? || Get(obj, "value").JArray?))
    ensures obj.JObject? && !Get(obj, "output_variable_id").JString?
      ==> r == Fail(FieldTypeMismatch("output_variable_id"))
    ensures obj.JObject? && Get(obj, "output_variable_id").JString? && r.Fail?
      ==> r == Fail(FieldTypeMismatch("value"))
  {
    if !obj.JObject? then Fail(NotAnObject)
    else
      Required("output_variable_id", Get(obj, "output_variable_id"), AClass(StringClass))
        .Then(Optional("value", Get(obj, "value"), AClass(ArrayClass)))
  }

  /** With a round-tripping search-result codec, a record whose `value` is an array
      decodes from its own encoding to the same id and to results that encode as
      before, in the same number and order. */
  lemma RoundTrip<S(!new)>(x: TestSuiteRunExecutionSearchResultsOutput<S>, searchResult: Codec<S>)
    requires Stable(searchResult) && x.value.Some?
    ensures FromJson(ToJson(x, searchResult), searchResult).Success?
    ensures ToJson(FromJson(ToJson(x, searchResult), searchResult).value, searchResult) == ToJson(x, searchResult)
  {
    DecodeMappedStable(searchResult, x.value.value);
  }

  /** A record built with `value` left nil encodes but does not decode back; an
      object without `value` passes the validator yet fails to decode. */
  lemma NilValueEncodesButDoesNotDecode<S>(x: TestSuiteRunExecutionSearchResultsOutput<S>, searchResult: Codec<S>, j: Json)
    requires x.value.None?
    requires j.JObject? && Get(j, "output_variable_id").JString? && "value" !in Keys(j)
    ensures FromJson(ToJson(x, searchResult), searchResult) == Failure(NoMethod("map"))
    ensures ValidateRaw(j).Pass? && FromJson(j, searchResult) == Failure(NoMethod("map"))
  {
  }
}
