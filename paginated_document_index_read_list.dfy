/** `PaginatedDocumentIndexReadList`: one page of document indexes. The attribute
    `next_` travels under the wire name `next`, and `results` is an array of nested
    `DocumentIndexRead`s (their codec is a parameter: its source is not part of
    this model). */
module PaginatedDocumentIndexReadListCodec {
  import opened Wrappers
  import opened Json
  import opened Codecs

  /** The decoded record, over the nested document-index type `D`. `results` is
      `None` only for a record built with the constructor's default (nil). */
  datatype PaginatedDocumentIndexReadList<D> = PaginatedDocumentIndexReadList(
    count: Json, next_: Json, previous: Json, results: Option<seq<D>>, additionalProperties: Json)

  /** `from_json`: `count` and `previous` are read by name and `next_` from the wire
      member `next` (absent reads as nil); `results` is mapped element by element
      through the document-index decoder with no nil guard. */
  function FromJson<D>(j: Json, documentIndex: Codec<D>): (r: Result<PaginatedDocumentIndexReadList<D>, Failure>)
    ensures !j.JObject? ==> r == Failure(NotAnObject)
    ensures j.JObject? && Get(j, "results").JNull? ==> r == Failure(NoMethod("map"))
    ensures j.JObject? && Get(j, "results").JArray? ==> (r.Success? <==>
      forall i :: 0 <= i < |Get(j, "results").items| ==> documentIndex.decode(Get(j, "results").items[i]).Success?)
    ensures r.Success? ==> (Reads(j, "count", r.value.count) && Reads(j, "next", r.value.next_)
      && Reads(j, "previous", r.value.previous) && r.value.additionalProperties == j)
    ensures r.Success? ==> r.value.results.Some? && MapDecodesTo(Get(j, "results"), documentIndex.decode, r.value.results.value)
  {
    if !j.JObject? then Failure(NotAnObject)
    else
      var results :- DecodeMapped(Get(j, "results"), documentIndex.decode);
      Success(PaginatedDocumentIndexReadList(Get(j, "count"), Get(j, "next"), Get(j, "previous"), Some(results), j))
  }

  /** `to_json`: exactly `count`, `next` (holding `next_`), `previous` and `results`,
      nil as null. */
  function ToJson<D>(x: PaginatedDocumentIndexReadList<D>, documentIndex: Codec<D>): (r: Json)
    ensures Keys(r) == ["count", "next", "previous", "results"]
    ensures Reads(r, "count", x.count) && Reads(r, "next", x.next_) && Reads(r, "previous", x.previous)
    ensures x.results.None? ==> Reads(r, "results", JNull)
    ensures x.results.Some? ==> Reads(r, "results", JArray(EncodeEach(x.results.value, documentIndex.encode)))
  {
    JObject([("count", x.count), ("next", x.next_), ("previous", x.previous),
             ("results", EncodeArray(x.results, documentIndex.encode))])
  }

  /** `validate_raw`: every member is optional; when present `count` must be an
      Integer, `previous` a String and `results` an Array (elements unchecked). The
      `next_` check reads a member named `next_`, not the wire name `next`. */
  function ValidateRaw(obj: Json): (r: Outcome<Failure>)
    ensures r.Pass? <==> (obj.JObject? && (Get(obj, "count").JNull? || Get(obj, "count").JInt?)
      && (Get(obj, "next_").JNull? || Get(obj, "next_").JString?)
      && (Get(obj, "previous").JNull? || Get(obj, "previous").JString?)
      && (Get(obj, "results").JNull? || Get(obj, "results").JArray?))
    ensures obj.JObject? && !(Get(obj, "count").JNull? || Get(obj, "count").JInt?)
      ==> r == Fail(FieldTypeMismatch("count"))
    ensures obj.JObject? && (Get(obj, "count").JNull? || Get(obj, "count").JInt?)
      && !(Get(obj, "next_").JNull? || Get(obj, "next_").JString?)
      ==> r == Fail(FieldTypeMismatch("next_"))
    ensures obj.JObject? && (Get(obj, "count").JNull? || Get(obj, "count").JInt?)
      && (Get(obj, "next_").JNull? || Get(obj, "next_").JString?)
      && !(Get(obj, "previous").JNull? || Get(obj, "previous").JString?)
      ==> r == Fail(FieldTypeMismatch("previous"))
    ensures obj.JObject? && (Get(obj, "count").JNull? || Get(obj, "count").JInt?)
      && (Get(obj, "next_").JNull? || Get(obj, "next_").JString?)
      && (Get(obj, "previous").JNull? || Get(obj, "previous").JString?)
      && !(Get(obj, "results").JNull? || Get(obj, "results").JArray?)
      ==> r == Fail(FieldTypeMismatch("results"))
    ensures !obj.JObject? ==> r == Fail(NotAnObject)
  {
    if !obj.JObject? then Fail(NotAnObject)
    else
      Optional("count", Get(obj, "count"), AClass(IntegerClass))
        .Then(Optional("next_", Get(obj, "next_"), AClass(StringClass)))
        .Then(Optional("previous", Get(obj, "previous"), AClass(StringClass)))
        .Then(Optional("results", Get(obj, "results"), AClass(ArrayClass)))
  }

  /** The validator as evidently intended: the `next_` attribute checked under its
      wire name `next`, like the decoder reads it. */
  function IntendedValidateRaw(obj: Json): (r: Outcome<Failure>)
    ensures r.Pass? <==> (obj.JObject? && (Get(obj, "count").JNull? || Get(obj, "count").JInt?)
      && (Get(obj, "next").JNull? || Get(obj, "next").JString?)
      && (Get(obj, "previous").JNull? || Get(obj, "previous").JString?)
      && (Get(obj, "results").JNull? || Get(obj, "results").JArray?))
    ensures obj.JObject? && !(Get(obj, "count").JNull? || Get(obj, "count").JInt?)
      ==> r == Fail(FieldTypeMismatch("count"))
    ensures obj.JObject? && (Get(obj, "count").JNull? || Get(obj, "count").JInt?)
      && !(Get(obj, "next").JNull? || Get(obj, "next").JString?)
      ==> r == Fail(FieldTypeMismatch("next"))
    ensures obj.JObject? && (Get(obj, "count").JNull? || Get(obj, "count").JInt?)
      && (Get(obj, "next").JNull? || Get(obj, "next").JString?)
      && !(Get(obj, "previous").JNull? || Get(obj, "previous").JString?)
      ==> r == Fail(FieldTypeMismatch("previous"))
    ensures obj.JObject? && (Get(obj, "count").JNull? || Get(obj, "count").JInt?)
      && (Get(obj, "next").JNull? || Get(obj, "next").JString?)
      && (Get(obj, "previous").JNull? || Get(obj, "previous").JString?)
      && !(Get(obj, "results").JNull? || Get(obj, "results").JArray?)
      ==> r == Fail(FieldTypeMismatch("results"))
    ensures !obj.JObject? ==> r == Fail(NotAnObject)
  {
    if !obj.JObject? then Fail(NotAnObject)
    else
      Optional("count", Get(obj, "count"), AClass(IntegerClass))
        .Then(Optional("next", Get(obj, "next"), AClass(StringClass)))
        .Then(Optional("previous", Get(obj, "previous"), AClass(StringClass)))
        .Then(Optional("results", Get(obj, "results"), AClass(ArrayClass)))
  }

  /** With a round-tripping document-index codec, a record whose `results` is an array
      decodes from its own encoding to the same `count`, `next_` and `previous`, and
      to results that encode as before. */
  lemma RoundTrip<D(!new)>(x: PaginatedDocumentIndexReadList<D>, documentIndex: Codec<D>)
    requires Stable(documentIndex) && x.results.Some?
    ensures FromJson(ToJson(x, documentIndex), documentIndex).Success?
    ensures var y := FromJson(ToJson(x, documentIndex), documentIndex).value;
      y.count == x.count && y.next_ == x.next_ && y.previous == x.previous
    ensures ToJson(FromJson(ToJson(x, documentIndex), documentIndex).value, documentIndex) == ToJson(x, documentIndex)
  {
    var r := ToJson(x, documentIndex);
    assert UniqueKeys(r);
    ReadsDeterminesGet(r, "count", x.count);
    ReadsDeterminesGet(r, "next", x.next_);
    ReadsDeterminesGet(r, "previous", x.previous);
    ReadsDeterminesGet(r, "results", EncodeArray(x.results, documentIndex.encode));
    DecodeMappedStable(documentIndex, x.results.value);
  }

  /** A record built with `results` left nil encodes but does not decode back; an
      object without `results` passes the validator yet fails to decode. */
  lemma NilResultsEncodeButDoNotDecode<D>(x: PaginatedDocumentIndexReadList<D>, documentIndex: Codec<D>, j: Json)
    requires x.results.None?
    requires j.JObject? && "results" !in Keys(j) && "count" !in Keys(j) && "next_" !in Keys(j) && "previous" !in Keys(j)
    ensures FromJson(ToJson(x, documentIndex), documentIndex) == Failure(NoMethod("map"))
    ensures ValidateRaw(j).Pass? && FromJson(j, documentIndex) == Failure(NoMethod("map"))
  {
  }

  /** As written, the validator never looks at what the encoder writes for `next_`:
      an encoded record passes whatever `next_` holds. The intended validator rejects
      exactly the encoded records whose `next_` is neither nil nor a String. */
  lemma ValidatorMissesWireNext<D>(x: PaginatedDocumentIndexReadList<D>, documentIndex: Codec<D>)
    ensures ValidateRaw(ToJson(x, documentIndex)).Pass?
      <==> (x.count.JNull? || x.count.JInt?) && (x.previous.JNull? || x.previous.JString?)
    ensures IntendedValidateRaw(ToJson(x, documentIndex)).Pass?
      <==> ((x.count.JNull? || x.count.JInt?) && (x.next_.JNull? || x.next_.JString?)
        && (x.previous.JNull? || x.previous.JString?))
  {
    var r := ToJson(x, documentIndex);
    assert UniqueKeys(r);
    ReadsDeterminesGet(r, "count", x.count);
    ReadsDeterminesGet(r, "next", x.next_);
    ReadsDeterminesGet(r, "previous", x.previous);
    assert Get(r, "next_") == JNull;
    assert Get(r, "results").JNull? || Get(r, "results").JArray?;
    ValidatorsOnMembers(r, x.count, x.next_, x.previous);
  }

  /** Both validators on an object, from what it holds under each name. */
  lemma ValidatorsOnMembers(r: Json, count: Json, next: Json, previous: Json)
    requires r.JObject? && Get(r, "count") == count && Get(r, "next") == next && Get(r, "previous") == previous
    requires Get(r, "next_") == JNull && (Get(r, "results").JNull? || Get(r, "results").JArray?)
    ensures ValidateRaw(r).Pass? <==> (count.JNull? || count.JInt?) && (previous.JNull? || previous.JString?)
    ensures IntendedValidateRaw(r).Pass?
      <==> ((count.JNull? || count.JInt?) && (next.JNull? || next.JString?) && (previous.JNull? || previous.JString?))
  {
  }

  /** `{"next": 5}` passes the validator as written and fails the intended one. */
  lemma WrongTypedNextPasses()
    ensures ValidateRaw(JObject([("next", JInt(5))])).Pass?
    ensures IntendedValidateRaw(JObject([("next", JInt(5))])) == Fail(FieldTypeMismatch("next"))
  {
  }
}
