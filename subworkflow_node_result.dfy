/** `SubworkflowNodeResult`: a record with no declared members. */
module SubworkflowNodeResultCodec {
  import opened Wrappers
  import opened Json
  import opened Codecs

  /** The decoded record: only the captured parsed input. */
  datatype SubworkflowNodeResult = SubworkflowNodeResult(additionalProperties: Json)

  /** `from_json`: reads nothing, so it never raises, whatever JSON value it is given. */
  function FromJson(j: Json): (r: Result<SubworkflowNodeResult, Failure>)
    ensures r == Success(SubworkflowNodeResult(j))
  {
    Success(SubworkflowNodeResult(j))
  }

  /** `to_json`: always `{}`. */
  function ToJson(x: SubworkflowNodeResult): (r: Json)
    ensures r == JObject([])
  {
    JObject([])
  }

  /** `validate_raw`: has an empty body. */
  function ValidateRaw(obj: Json): (r: Outcome<Failure>)
    ensures r == Pass
  {
    Pass
  }

  function AsCodec(): Codec<SubworkflowNodeResult> {
    Codec(FromJson, ToJson, ValidateRaw)
  }

  /** Decode keeps every input apart (it is total and injective), yet encoding what
      it decoded gives the same empty object for all inputs, and the validator
      accepts all of them: everything captured is dropped. */
  lemma CapturedInputIsDropped(j1: Json, j2: Json)
    ensures FromJson(j1).Success? && FromJson(j1).value.additionalProperties == j1
    ensures j1 != j2 ==> FromJson(j1) != FromJson(j2)
    ensures ToJson(FromJson(j1).value) == ToJson(FromJson(j2).value) == JObject([])
    ensures ValidateRaw(j1).Pass?
  {
  }

  /** The record codec composes into any record that nests it: what it encodes
      decodes and re-encodes to the same `{}`. */
  lemma StableCodec()
    ensures Stable(AsCodec())
  {
  }
}
