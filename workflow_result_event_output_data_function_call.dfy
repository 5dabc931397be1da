/** `WorkflowResultEventOutputDataFunctionCall`: a function-call output of a
    Workflow execution event. Its `state` is mapped through the
    WORKFLOW_NODE_RESULT_EVENT_STATE Hash, and its `value` is a nested
    `FunctionCall` (its codec is a parameter: its source is not part of this
    model, nor are the Hash's contents, which are a parameter too). */
module WorkflowResultEventOutputDataFunctionCallCodec {
  import opened Wrappers
  import opened Json
  import opened Codecs

  /** A Ruby Symbol, such as a key of the state Hash. */
  datatype Symbol = Symbol(name: string)

  /** WORKFLOW_NODE_RESULT_EVENT_STATE: an ordered Hash from Symbol keys to wire
      strings. */
  type StateTable = seq<(Symbol, string)>

  /** A Hash never holds one key twice. */
  ghost predicate UniqueSymbols(states: StateTable) {
    forall a, b :: 0 <= a < b < |states| ==> states[a].0 != states[b].0
  }

  /** No two keys share a wire string. */
  ghost predicate UniqueWireValues(states: StateTable) {
    forall a, b :: 0 <= a < b < |states| ==> states[a].1 != states[b].1
  }

  /** `Hash#key(v)`: the first key whose value equals `v`, or nil; only a String can
      equal a wire string. */
  function KeyFor(states: StateTable, v: Json): (k: Option<Symbol>)
    ensures k.Some? ==> v.JString? && (k.value, v.s) in states
    ensures k.None? ==> !v.JString? || forall i :: 0 <= i < |states| ==> states[i].1 != v.s
  {
    if |states| == 0 || !v.JString? then None
    else if states[0].1 == v.s then Some(states[0].0)
    else
      assert forall i :: 1 <= i < |states| ==> states[i] == states[1..][i - 1];
      KeyFor(states[1..], v)
  }

  /** `Hash#[](k)`: the value stored under `k`, or nil. */
  function ValueFor(states: StateTable, k: Symbol): (s: Option<string>)
    ensures s.Some? ==> (k, s.value) in states
    ensures s.None? ==> forall i :: 0 <= i < |states| ==> states[i].0 != k
  {
    if |states| == 0 then None
    else if states[0].0 == k then Some(states[0].1)
    else
      assert forall i :: 1 <= i < |states| ==> states[i] == states[1..][i - 1];
      ValueFor(states[1..], k)
  }

  /** The decoded `state`: a key of the Hash, or the raw wire value when no key maps
      to it. A raw value is never a Symbol, so it is never taken for a key. */
  datatype State = Key(symbol: Symbol) | Raw(value: Json)

  /** `WORKFLOW_NODE_RESULT_EVENT_STATE.key(parsed_json["state"]) || parsed_json["state"]`. */
  function DecodeState(states: StateTable, v: Json): (st: State)
    ensures st.Key? <==> v.JString? && exists i :: 0 <= i < |states| && states[i].1 == v.s
    ensures st.Key? ==> (st.symbol, v.s) in states
    ensures st.Raw? ==> st.value == v
  {
    match KeyFor(states, v)
    case Some(k) => Key(k)
    case None => Raw(v)
  }

  /** `WORKFLOW_NODE_RESULT_EVENT_STATE[@state] || @state`: a key is written as its
      wire string, or as its own name (`Symbol#to_json`) when the Hash lacks it; a
      raw value is not a key of the Hash, so it is written unchanged. */
  function EncodeState(states: StateTable, st: State): (r: Json)
    ensures st.Key? ==> r.JString?
    ensures st.Key? && (exists i :: 0 <= i < |states| && states[i].0 == st.symbol) ==> (st.symbol, r.s) in states
    ensures st.Key? && (forall i :: 0 <= i < |states| ==> states[i].0 != st.symbol) ==> r == JString(st.symbol.name)
    ensures st.Raw? ==> r == st.value
  {
    match st
    case Key(k) => (match ValueFor(states, k) case Some(s) => JString(s) case None => JString(k.name))
    case Raw(v) => v
  }

  /** When the Hash holds each key once, every wire value survives decode followed by
      encode: a wire string of the Hash comes back from its key, anything else was
      kept raw. */
  lemma WireStateRoundTrip(states: StateTable, v: Json)
    ensures UniqueSymbols(states) ==> EncodeState(states, DecodeState(states, v)) == v
  {
    match KeyFor(states, v)
    case None =>
    case Some(k) =>
      if !UniqueSymbols(states) { return; }
      var a :| 0 <= a < |states| && states[a] == (k, v.s);
      var b :| 0 <= b < |states| && states[b] == (k, ValueFor(states, k).value);
      assert a == b;
  }

  /** A decoded-style state survives encode followed by decode: a key the Hash holds,
      when no other key shares its wire string, and a raw value that is not a wire
      string of the Hash. */
  lemma StateRoundTrip(states: StateTable, st: State)
    requires UniqueWireValues(states)
    requires st.Key? ==> ValueFor(states, st.symbol).Some?
    requires st.Raw? ==> KeyFor(states, st.value).None?
    ensures DecodeState(states, EncodeState(states, st)) == st
  {
    if st.Key? {
      var s := ValueFor(states, st.symbol).value;
      var k := KeyFor(states, JString(s)).value;
      var a :| 0 <= a < |states| && states[a] == (st.symbol, s);
      var b :| 0 <= b < |states| && states[b] == (k, s);
      assert a == b;
    }
  }

  /** The decoded record, over the nested function-call type `F`. */
  datatype WorkflowResultEventOutputDataFunctionCall<F> = WorkflowResultEventOutputDataFunctionCall(
    id: Json, name: Json, state: State, nodeId: Json, delta: Json, value: Option<F>, additionalProperties: Json)

  /** `from_json`: `id`, `name`, `node_id` and `delta` are read by name (absent reads
      as nil); `state` is looked up in the Hash; a null or absent `value` is nil, any
      other goes through the function-call decoder, whose error is the only one an
      object input can raise. */
  function FromJson<F>(j: Json, states: StateTable, functionCall: Codec<F>): (r: Result<WorkflowResultEventOutputDataFunctionCall<F>, Failure>)
    ensures !j.JObject? ==> r == Failure(NotAnObject)
    ensures j.JObject? ==> (r.Success? <==> (Get(j, "value").JNull? || functionCall.decode(Get(j, "value")).Success?))
    ensures j.JObject? && r.Failure? ==> r == Failure(functionCall.decode(Get(j, "value")).error)
    ensures r.Success? ==> (Reads(j, "id", r.value.id) && Reads(j, "name", r.value.name)
      && Reads(j, "node_id", r.value.nodeId) && Reads(j, "delta", r.value.delta)
      && r.value.additionalProperties == j)
    ensures r.Success? ==> (r.value.state.Key? <==> KeyFor(states, Get(j, "state")).Some?)
    ensures r.Success? && UniqueSymbols(states) ==> Reads(j, "state", EncodeState(states, r.value.state))
    ensures r.Success? ==> (r.value.value.None? <==> Get(j, "value").JNull?)
    ensures r.Success? && r.value.value.Some? ==> functionCall.decode(Get(j, "value")) == Success(r.value.value.value)
  {
    if !j.JObject? then Failure(NotAnObject)
    else
      var value :- DecodeNullable(Get(j, "value"), functionCall.decode);
      var state := DecodeState(states, Get(j, "state"));
      WireStateRoundTrip(states, Get(j, "state"));
      Success(WorkflowResultEventOutputDataFunctionCall(
        Get(j, "id"), Get(j, "name"), state, Get(j, "node_id"), Get(j, "delta"), value, j))
  }

  /** `to_json`: exactly `id`, `name`, `state`, `node_id`, `delta` and `value`, nil as
      null; `state` written back as a wire value. */
  function ToJson<F>(x: WorkflowResultEventOutputDataFunctionCall<F>, states: StateTable, functionCall: Codec<F>): (r: Json)
    ensures Keys(r) == ["id", "name", "state", "node_id", "delta", "value"]
    ensures UniqueKeys(r)
    ensures Reads(r, "id", x.id) && Reads(r, "name", x.name) && Reads(r, "state", EncodeState(states, x.state))
      && Reads(r, "node_id", x.nodeId) && Reads(r, "delta", x.delta)
    ensures x.value.None? ==> Reads(r, "value", JNull)
    ensures x.value.Some? ==> Reads(r, "value", functionCall.encode(x.value.value))
  {
    JObject([("id", x.id), ("name", x.name), ("state", EncodeState(states, x.state)), ("node_id", x.nodeId),
             ("delta", x.delta), ("value", EncodeNullable(x.value, functionCall.encode))])
  }

  /** `validate_raw`: `id` nil or a String, then `name` a String, then `state` is
      checked with `is_a?` against the state Hash, which raises a TypeError whatever
      `state` holds. So validation never passes; the checks of `node_id`, `delta` and
      `value` are never reached. */
  function ValidateRaw<F>(obj: Json, functionCall: Codec<F>): (r: Outcome<Failure>)
    ensures r.Fail?
    ensures obj.JObject? && !(Get(obj, "id").JNull? || Get(obj, "id").JString?) ==> r == Fail(FieldTypeMismatch("id"))
    ensures obj.JObject? && (Get(obj, "id").JNull? || Get(obj, "id").JString?) && !Get(obj, "name").JString?
      ==> r == Fail(FieldTypeMismatch("name"))
    ensures obj.JObject? && (Get(obj, "id").JNull? || Get(obj, "id").JString?) && Get(obj, "name").JString?
      ==> r == Fail(ClassOrModuleRequired)
  {
    if !obj.JObject? then Fail(NotAnObject)
    else
      Optional("id", Get(obj, "id"), AClass(StringClass))
        .Then(Required("name", Get(obj, "name"), AClass(StringClass)))
        .Then(Required("state", Get(obj, "state"), AHash))
        .Then(Required("node_id", Get(obj, "node_id"), AClass(StringClass)))
        .Then(Optional("delta", Get(obj, "delta"), AClass(StringClass)))
        .Then(ValidateNullable(Get(obj, "value"), functionCall.validate))
  }

  /** The `state` check as evidently intended: `state` is one of the Hash's wire
      strings. */
  function StateCheck(states: StateTable, v: Json): (r: Outcome<Failure>)
    ensures r.Pass? <==> v.JString? && exists i :: 0 <= i < |states| && states[i].1 == v.s
    ensures r.Fail? ==> r.error == FieldTypeMismatch("state")
  {
    if KeyFor(states, v).Some? then Pass else Fail(FieldTypeMismatch("state"))
  }

  /** `validate_raw` with the `state` check as evidently intended; every other check
      as written. */
  function IntendedValidateRaw<F>(obj: Json, states: StateTable, functionCall: Codec<F>): (r: Outcome<Failure>)
    ensures r.Pass? <==> (obj.JObject? && (Get(obj, "id").JNull? || Get(obj, "id").JString?)
      && Get(obj, "name").JString? && StateCheck(states, Get(obj, "state")).Pass?
      && Get(obj, "node_id").JString? && (Get(obj, "delta").JNull? || Get(obj, "delta").JString?)
      && (Get(obj, "value").JNull? || functionCall.validate(Get(obj, "value")).Pass?))
    ensures obj.JObject? && !(Get(obj, "id").JNull? || Get(obj, "id").JString?) ==> r == Fail(FieldTypeMismatch("id"))
    ensures obj.JObject? && (Get(obj, "id").JNull? || Get(obj, "id").JString?) && !Get(obj, "name").JString?
      ==> r == Fail(FieldTypeMismatch("name"))
    ensures obj.JObject? && (Get(obj, "id").JNull? || Get(obj, "id").JString?) && Get(obj, "name").JString?
      && StateCheck(states, Get(obj, "state")).Fail?
      ==> r == Fail(FieldTypeMismatch("state"))
    ensures obj.JObject? && (Get(obj, "id").JNull? || Get(obj, "id").JString?) && Get(obj, "name").JString?
      && StateCheck(states, Get(obj, "state")).Pass? && !Get(obj, "node_id").JString?
      ==> r == Fail(FieldTypeMismatch("node_id"))
    ensures obj.JObject? && (Get(obj, "id").JNull? || Get(obj, "id").JString?) && Get(obj, "name").JString?
      && StateCheck(states, Get(obj, "state")).Pass? && Get(obj, "node_id").JString?
      && !(Get(obj, "delta").JNull? || Get(obj, "delta").JString?)
      ==> r == Fail(FieldTypeMismatch("delta"))
    ensures obj.JObject? && (Get(obj, "id").JNull? || Get(obj, "id").JString?) && Get(obj, "name").JString?
      && StateCheck(states, Get(obj, "state")).Pass? && Get(obj, "node_id").JString?
      && (Get(obj, "delta").JNull? || Get(obj, "delta").JString?) && !Get(obj, "value").JNull?
      ==> r == functionCall.validate(Get(obj, "value"))
    ensures !obj.JObject? ==> r == Fail(NotAnObject)
  {
    if !obj.JObject? then Fail(NotAnObject)
    else
      Optional("id", Get(obj, "id"), AClass(StringClass))
        .Then(Required("name", Get(obj, "name"), AClass(StringClass)))
        .Then(StateCheck(states, Get(obj, "state")))
        .Then(Required("node_id", Get(obj, "node_id"), AClass(StringClass)))
        .Then(Optional("delta", Get(obj, "delta"), AClass(StringClass)))
        .Then(ValidateNullable(Get(obj, "value"), functionCall.validate))
  }

  function AsCodec<F>(states: StateTable, functionCall: Codec<F>): Codec<WorkflowResultEventOutputDataFunctionCall<F>> {
    Codec(j => FromJson(j, states, functionCall), x => ToJson(x, states, functionCall), obj => ValidateRaw(obj, functionCall))
  }

  /** With a state Hash that holds each key once and a round-tripping function-call
      codec, decoding an encoded record gives back `id`, `name`, `node_id` and `delta`,
      a state that encodes to the same wire value, and a function call that encodes
      as before. */
  lemma StableCodec<F(!new)>(states: StateTable, functionCall: Codec<F>)
    requires UniqueSymbols(states) && Stable(functionCall)
    ensures Stable(AsCodec(states, functionCall))
  {
    forall x: WorkflowResultEventOutputDataFunctionCall<F>
      ensures FromJson(ToJson(x, states, functionCall), states, functionCall).Success?
      ensures ToJson(FromJson(ToJson(x, states, functionCall), states, functionCall).value, states, functionCall)
        == ToJson(x, states, functionCall)
    {
      var r := ToJson(x, states, functionCall);
      ReadsDeterminesGet(r, "id", x.id);
      ReadsDeterminesGet(r, "name", x.name);
      ReadsDeterminesGet(r, "state", EncodeState(states, x.state));
      ReadsDeterminesGet(r, "node_id", x.nodeId);
      ReadsDeterminesGet(r, "delta", x.delta);
      ReadsDeterminesGet(r, "value", EncodeNullable(x.value, functionCall.encode));
      DecodeNullableStable(functionCall, x.value);
      WireStateRoundTrip(states, EncodeState(states, x.state));
    }
  }

  /** As written, even the encoding of a well-typed record fails validation, with the
      TypeError raised at the `state` check; the intended validator accepts it. */
  lemma ValidatorRejectsWellTypedEncoding<F>(x: WorkflowResultEventOutputDataFunctionCall<F>, states: StateTable, functionCall: Codec<F>)
    requires UniqueSymbols(states)
    requires (x.id.JNull? || x.id.JString?) && x.name.JString? && x.nodeId.JString? && (x.delta.JNull? || x.delta.JString?)
    requires x.state.Key? && ValueFor(states, x.state.symbol).Some?
    requires x.value.Some? ==> functionCall.validate(functionCall.encode(x.value.value)).Pass?
    ensures ValidateRaw(ToJson(x, states, functionCall), functionCall) == Fail(ClassOrModuleRequired)
    ensures IntendedValidateRaw(ToJson(x, states, functionCall), states, functionCall).Pass?
  {
    var r := ToJson(x, states, functionCall);
    ReadsDeterminesGet(r, "id", x.id);
    ReadsDeterminesGet(r, "name", x.name);
    ReadsDeterminesGet(r, "state", EncodeState(states, x.state));
    ReadsDeterminesGet(r, "node_id", x.nodeId);
    ReadsDeterminesGet(r, "delta", x.delta);
    ReadsDeterminesGet(r, "value", EncodeNullable(x.value, functionCall.encode));
    var s := ValueFor(states, x.state.symbol).value;
    var i :| 0 <= i < |states| && states[i] == (x.state.symbol, s);
    assert states[i].1 == s;
  }
}
