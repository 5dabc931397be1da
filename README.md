# Vellum Ruby SDK: JSON codecs of the generated types

This project models, in Dafny, the JSON codec layer of the Vellum Ruby SDK
(`vellum-client-ruby`). The SDK's transport code only moves JSON text. All of
its logic is in the generated type classes, and each class has three class
methods:

- `from_json` reads a parsed JSON object member by member into a typed
  instance. It keeps the whole parsed input as `additional_properties`.
- `to_json` writes the declared members back, under their wire names.
- `validate_raw` checks the runtime class of each member and raises on the
  first mismatch.

Two kinds of generated type are modelled:

- **Tagged unions.** `ExecutionVellumValue` has eight variants and
  `TestSuiteRunExecConfigRequest` has two. Each dispatches on the `type`
  member to one variant's codec, keeps the original tag as `discriminant`,
  and has one factory per tag. Their constructor is private.
- **Twelve record types.** Their members are plain values, nested records
  (decoded only when not null), arrays of nested records (decoded with
  `map`, with no null guard), a renamed member (`next_` on the wire as
  `next`), and an enum member mapped through a Hash (`state`).

How Ruby is represented:

- A parsed JSON value is the `Json` datatype. An object is an ordered list of
  members, as a Ruby Hash is. Ruby's `nil` and JSON `null` are both `JNull`.
- Reading a member (`struct.id`, `parsed_json["value"]`) is `Json.Get`. An
  absent member reads as nil.
- A raised exception is a `Codecs.Failure` value. `from_json` returns a
  `Result`, and `validate_raw` returns an `Outcome`.
- A nested type whose source is not part of this model is a parameter of
  type `Codecs.Codec`. This covers `FunctionCall`, `VellumImage`,
  `VellumError`, `ChatMessage`, `SearchResult`, `DocumentIndexRead` and the
  union variants. The contents of `WORKFLOW_NODE_RESULT_EVENT_STATE` are a
  parameter too.
- Round trips are stated with `Codecs.Stable`: what a codec encodes decodes
  again and re-encodes to the same JSON. Each record's stability is proved
  from the stability of the codecs it nests.

The known-tag branches of a union's `to_json`
(`execution_vellum_value.rb:64-78`) build the member's encoding with `type`
merged in. The method, however, returns line 82's value, which is the
member's own encoding, and on a known tag the branch raises before that line
is reached. The model follows the code. The merging encoder appears only as
the corrected half of a finding below.

## Model

| member | source | states |
|---|---|---|
| Json.Get | lib/vellum_ai/types/workflow_output_string.rb:33-35 | reading a member gives its value when the object has it and nil otherwise; a non-object has no members |
| Json.Put | lib/vellum_ai/types/execution_vellum_value.rb:64 | `{ **h, type: d }` reads `d` under the key and leaves every other key's value unchanged; member names keep their order, and a new key is appended |
| Codecs.IsA | lib/vellum_ai/types/workflow_result_event_output_data_function_call.rb:77-81 | `is_a?` raises exactly when given a Hash instead of a class; an Integer is never a Float and the other way round |
| Codecs.Required | lib/vellum_ai/types/workflow_output_string.rb:51-52 | `v.is_a?(C) != false \|\| raise` passes exactly on instances of C; nil fails, and the error names the field |
| Codecs.Optional | lib/vellum_ai/types/workflow_output_string.rb:53 | `v&.is_a?(C)` passes on nil and otherwise behaves as the required check |
| Codecs.ValidateNullable | lib/vellum_ai/types/workflow_output_image.rb:59 | the nested validator runs only on a value that is not nil |
| Codecs.DecodeNullable | lib/vellum_ai/types/workflow_output_image.rb:36-41 | null decodes to nil; any other value succeeds exactly when the nested decoder does, and its error is passed on |
| Codecs.MapReceiver | lib/vellum_ai/types/execution_chat_history_vellum_value.rb:35 | `map` iterates an Array's elements, or a Hash's `[key, value]` pairs in order; any other receiver raises NoMethodError |
| Codecs.DecodeEach | lib/vellum_ai/types/execution_chat_history_vellum_value.rb:35-38 | mapping a decoder succeeds exactly when every element decodes, keeping length and order; on failure the error is the first failing element's |
| Codecs.DecodeMapped | lib/vellum_ai/types/test_suite_run_execution_search_results_output.rb:31-34 | an absent or null array member raises NoMethodError; otherwise decoding succeeds exactly when every element does |
| Codecs.EncodeNullable | lib/vellum_ai/types/workflow_output_image.rb:49 | a nested record member is written as null when nil, and as its own encoding otherwise |
| Codecs.EncodeArray | lib/vellum_ai/types/execution_chat_history_vellum_value.rb:46 | an array member is written as null when nil, and otherwise as an array of the same length holding each element's encoding in order |
| Codecs.EncodeEach | lib/vellum_ai/types/execution_chat_history_vellum_value.rb:46 | an array of records is written element by element, in order |
| Codecs.DecodeEachStable | lib/vellum_ai/types/execution_chat_history_vellum_value.rb:35-38 | with a stable element codec, mapping decode over encoded elements succeeds and re-encodes to the same elements |
| Codecs.DecodeNullableStable | lib/vellum_ai/types/workflow_output_image.rb:36-40 | a nil-guarded nested member round-trips through a stable codec |
| Codecs.DecodeMappedStable | lib/vellum_ai/types/execution_chat_history_vellum_value.rb:35-46 | a present array round-trips through a stable element codec; a nil array is written as null, which decode rejects |
| WorkflowOutputStringCodec.FromJson | lib/vellum_ai/types/workflow_output_string.rb:30-36 | decode succeeds on every object, reads `id`, `name`, `value` by name (absent means nil) and keeps the whole input |
| WorkflowOutputStringCodec.ToJson | lib/vellum_ai/types/workflow_output_string.rb:42-44 | the output has exactly the keys `id`, `name`, `value`, holding the record's values |
| WorkflowOutputStringCodec.ValidateRaw | lib/vellum_ai/types/workflow_output_string.rb:50-54 | passes exactly when `id` and `name` are Strings and `value` is nil or a String; each check's failure, once the earlier checks pass, raises naming its own field (`id`, `name`, `value`) |
| WorkflowOutputStringCodec.RoundTrip | lib/vellum_ai/types/workflow_output_string.rb:33-43 | decoding an encoded record gives back `id`, `name` and `value` |
| WorkflowOutputStringCodec.StableCodec | lib/vellum_ai/types/workflow_output_string.rb:30-44 | the codec is stable |
| WorkflowOutputStringCodec.DecodeLenientValidateStrict | lib/vellum_ai/types/workflow_output_string.rb:33-51 | an object without `id` decodes (to nil) but fails validation on `id` |
| WorkflowRequestStringInputRequestCodec.FromJson | lib/vellum_ai/types/workflow_request_string_input_request.rb:27-32 | decode succeeds on every object, reads `name` and `value` and keeps the whole input |
| WorkflowRequestStringInputRequestCodec.ToJson | lib/vellum_ai/types/workflow_request_string_input_request.rb:38-40 | the output has exactly the keys `name` and `value` |
| WorkflowRequestStringInputRequestCodec.ValidateRaw | lib/vellum_ai/types/workflow_request_string_input_request.rb:46-48 | passes exactly when `name` and `value` are both Strings; the error names the first failing field |
| WorkflowRequestStringInputRequestCodec.RoundTrip | lib/vellum_ai/types/workflow_request_string_input_request.rb:30-39 | decoding an encoded record gives back `name` and `value` |
| WorkflowRequestStringInputRequestCodec.StableCodec | lib/vellum_ai/types/workflow_request_string_input_request.rb:27-40 | the codec is stable |
| WorkflowRequestStringInputRequestCodec.NilValueDecodesButFailsValidation | lib/vellum_ai/types/workflow_request_string_input_request.rb:31-48 | a missing `value` decodes to nil, and the validator rejects it |
| NumberVariableValueCodec.FromJson | lib/vellum_ai/types/number_variable_value.rb:23-27 | decode succeeds on every object, reads `value` and keeps the whole input |
| NumberVariableValueCodec.ToJson | lib/vellum_ai/types/number_variable_value.rb:33-35 | the output has exactly the key `value` |
| NumberVariableValueCodec.ValidateRaw | lib/vellum_ai/types/number_variable_value.rb:41-42 | passes exactly when `value` is nil or a Float |
| NumberVariableValueCodec.RoundTrip | lib/vellum_ai/types/number_variable_value.rb:26-34 | decoding an encoded record gives back `value` |
| NumberVariableValueCodec.StableCodec | lib/vellum_ai/types/number_variable_value.rb:23-35 | the codec is stable |
| NumberVariableValueCodec.IntegralNumberRejected | lib/vellum_ai/types/number_variable_value.rb:26-42 | an integral number decodes but fails validation; a fractional one passes; a String fails |
| SubworkflowNodeResultCodec.FromJson | lib/vellum_ai/types/subworkflow_node_result.rb:21-25 | decode never fails, on any JSON value, and keeps the whole input |
| SubworkflowNodeResultCodec.ToJson | lib/vellum_ai/types/subworkflow_node_result.rb:30-32 | every record encodes to `{}` |
| SubworkflowNodeResultCodec.ValidateRaw | lib/vellum_ai/types/subworkflow_node_result.rb:38 | validation passes on every input |
| SubworkflowNodeResultCodec.CapturedInputIsDropped | lib/vellum_ai/types/subworkflow_node_result.rb:21-38 | decode accepts any value and keeps it; distinct inputs decode apart, yet every one encodes to `{}` and validates |
| SubworkflowNodeResultCodec.StableCodec | lib/vellum_ai/types/subworkflow_node_result.rb:21-32 | the codec is stable |
| WorkflowOutputImageCodec.FromJson | lib/vellum_ai/types/workflow_output_image.rb:31-42 | `id` and `name` are read by name; a null or absent `value` is nil and any other goes through the image decoder, whose error is the only possible one on an object |
| WorkflowOutputImageCodec.ToJson | lib/vellum_ai/types/workflow_output_image.rb:48-50 | the output has exactly `id`, `name`, `value`, with nil written as null |
| WorkflowOutputImageCodec.ValidateRaw | lib/vellum_ai/types/workflow_output_image.rb:56-59 | passes exactly when `id` and `name` are Strings and `value` is nil or passes the image validator; the first failing String check raises naming its field, and after both pass a non-nil `value` gets exactly the image validator's outcome |
| WorkflowOutputImageCodec.StableCodec | lib/vellum_ai/types/workflow_output_image.rb:31-50 | stable whenever the image codec is |
| WorkflowOutputImageCodec.NilValueSkipsNestedCodec | lib/vellum_ai/types/workflow_output_image.rb:36-59 | a null `value` reaches neither the image decoder nor the image validator |
| ExecutionErrorVellumValueCodec.FromJson | lib/vellum_ai/types/execution_error_vellum_value.rb:30-41 | `id` and `name` are read by name; a null or absent `value` is nil and any other goes through the error decoder |
| ExecutionErrorVellumValueCodec.ToJson | lib/vellum_ai/types/execution_error_vellum_value.rb:47-49 | the output has exactly `id`, `name`, `value`, with nil written as null |
| ExecutionErrorVellumValueCodec.ValidateRaw | lib/vellum_ai/types/execution_error_vellum_value.rb:55-58 | passes exactly when `id` and `name` are Strings and `value` is nil or passes the error validator; the first failing String check raises naming its field, and after both pass a non-nil `value` gets exactly the error validator's outcome |
| ExecutionErrorVellumValueCodec.StableCodec | lib/vellum_ai/types/execution_error_vellum_value.rb:30-49 | stable whenever the error codec is |
| ExecutionErrorVellumValueCodec.NilValueSkipsNestedCodec | lib/vellum_ai/types/execution_error_vellum_value.rb:35-58 | a null `value` reaches neither the error decoder nor the error validator |
| NodeInputCompiledFunctionCallCodec.FromJson | lib/vellum_ai/types/node_input_compiled_function_call.rb:30-41 | `node_input_id` and `key` are read by name; a null or absent `value` is nil and any other goes through the function-call decoder |
| NodeInputCompiledFunctionCallCodec.ToJson | lib/vellum_ai/types/node_input_compiled_function_call.rb:47-49 | the output has exactly `node_input_id`, `key`, `value` |
| NodeInputCompiledFunctionCallCodec.ValidateRaw | lib/vellum_ai/types/node_input_compiled_function_call.rb:55-58 | passes exactly when `node_input_id` and `key` are Strings and `value` is nil or passes the function-call validator; the first failing String check raises naming its field, and after both pass a non-nil `value` gets exactly the function-call validator's outcome |
| NodeInputCompiledFunctionCallCodec.StableCodec | lib/vellum_ai/types/node_input_compiled_function_call.rb:30-49 | stable whenever the function-call codec is |
| NodeInputCompiledFunctionCallCodec.NilValueSkipsNestedCodec | lib/vellum_ai/types/node_input_compiled_function_call.rb:35-58 | a null `value` reaches neither the function-call decoder nor its validator |
| TestSuiteRunMetricErrorOutputCodec.FromJson | lib/vellum_ai/types/test_suite_run_metric_error_output.rb:28-38 | a null or absent `value` is nil and any other goes through the error decoder; `name` is read by name |
| TestSuiteRunMetricErrorOutputCodec.ToJson | lib/vellum_ai/types/test_suite_run_metric_error_output.rb:44-46 | the output has exactly `value` then `name` |
| TestSuiteRunMetricErrorOutputCodec.ValidateRaw | lib/vellum_ai/types/test_suite_run_metric_error_output.rb:52-54 | `value` always goes to the error validator, nil included, whose error comes first; then `name` must be a String |
| TestSuiteRunMetricErrorOutputCodec.StableCodec | lib/vellum_ai/types/test_suite_run_metric_error_output.rb:28-46 | stable whenever the error codec is |
| TestSuiteRunMetricErrorOutputCodec.NilValueDecodesButIsStillValidated | lib/vellum_ai/types/test_suite_run_metric_error_output.rb:31-53 | a null `value` decodes to nil but is still handed to the error validator |
| ExecutionChatHistoryVellumValueCodec.FromJson | lib/vellum_ai/types/execution_chat_history_vellum_value.rb:30-39 | `id` and `name` are read by name; a null or absent `value` raises NoMethodError; an array decodes exactly when every chat message does, in order |
| ExecutionChatHistoryVellumValueCodec.ToJson | lib/vellum_ai/types/execution_chat_history_vellum_value.rb:45-47 | the output has exactly `id`, `name`, `value`, the messages written in order |
| ExecutionChatHistoryVellumValueCodec.ValidateRaw | lib/vellum_ai/types/execution_chat_history_vellum_value.rb:53-56 | passes exactly when `id` and `name` are Strings and `value` is nil or an Array; each check's failure, once the earlier checks pass, raises naming its own field (`id`, `name`, `value`) |
| ExecutionChatHistoryVellumValueCodec.RoundTrip | lib/vellum_ai/types/execution_chat_history_vellum_value.rb:35-46 | with a stable message codec, an encoded record with messages decodes and re-encodes unchanged |
| ExecutionChatHistoryVellumValueCodec.NilValueEncodesButDoesNotDecode | lib/vellum_ai/types/execution_chat_history_vellum_value.rb:15-56 | a record with nil `value` (the constructor's default) encodes, but its encoding does not decode; an object without `value` validates but does not decode |
| TestSuiteRunExecutionSearchResultsOutputCodec.FromJson | lib/vellum_ai/types/test_suite_run_execution_search_results_output.rb:27-35 | `output_variable_id` is read by name; a null or absent `value` raises NoMethodError; an array decodes exactly when every search result does, in order |
| TestSuiteRunExecutionSearchResultsOutputCodec.ToJson | lib/vellum_ai/types/test_suite_run_execution_search_results_output.rb:41-43 | the output has exactly `output_variable_id` and `value` |
| TestSuiteRunExecutionSearchResultsOutputCodec.ValidateRaw | lib/vellum_ai/types/test_suite_run_execution_search_results_output.rb:49-52 | passes exactly when `output_variable_id` is a String and `value` is nil or an Array |
| TestSuiteRunExecutionSearchResultsOutputCodec.RoundTrip | lib/vellum_ai/types/test_suite_run_execution_search_results_output.rb:31-42 | with a stable search-result codec, an encoded record with results decodes and re-encodes unchanged |
| TestSuiteRunExecutionSearchResultsOutputCodec.NilValueEncodesButDoesNotDecode | lib/vellum_ai/types/test_suite_run_execution_search_results_output.rb:14-51 | a record with nil `value` encodes, but its encoding does not decode; an object without `value` validates but does not decode |
| PaginatedDocumentIndexReadListCodec.FromJson | lib/vellum_ai/types/paginated_document_index_read_list.rb:33-43 | `count`, `next` (stored as `next_`) and `previous` are read by wire name; `results` is mapped, raising on null or absent |
| PaginatedDocumentIndexReadListCodec.ToJson | lib/vellum_ai/types/paginated_document_index_read_list.rb:49-51 | the output has exactly `count`, `next`, `previous`, `results`, with `next_` written as `next` |
| PaginatedDocumentIndexReadListCodec.ValidateRaw | lib/vellum_ai/types/paginated_document_index_read_list.rb:57-61 | passes exactly when `count` is nil or an Integer, the member `next_` nil or a String, `previous` nil or a String and `results` nil or an Array; each check's failure, once the earlier checks pass, raises naming its own field (`count`, `next_`, `previous`, `results`) |
| PaginatedDocumentIndexReadListCodec.IntendedValidateRaw | lib/vellum_ai/types/paginated_document_index_read_list.rb:57-61 | the same checks, failures and field names, with `next` read under its wire name |
| PaginatedDocumentIndexReadListCodec.RoundTrip | lib/vellum_ai/types/paginated_document_index_read_list.rb:36-50 | an encoded list with results decodes back to the same `count`, `next_`, `previous` and re-encodes unchanged |
| PaginatedDocumentIndexReadListCodec.NilResultsEncodeButDoNotDecode | lib/vellum_ai/types/paginated_document_index_read_list.rb:16-61 | nil `results` encodes but its encoding does not decode; an object without it validates but does not decode |
| PaginatedDocumentIndexReadListCodec.ValidatorMissesWireNext | lib/vellum_ai/types/paginated_document_index_read_list.rb:50-59 | an encoded list passes validation whatever `next_` holds; the intended validator also requires it to be nil or a String |
| PaginatedDocumentIndexReadListCodec.WrongTypedNextPasses | lib/vellum_ai/types/paginated_document_index_read_list.rb:37-59 | `{"next": 5}` passes as written and fails the intended validator on `next` |
| WorkflowResultEventOutputDataFunctionCallCodec.KeyFor | lib/vellum_ai/types/workflow_result_event_output_data_function_call.rb:46 | `Hash#key` finds a key holding the given String, or none when no key holds it or the value is not a String |
| WorkflowResultEventOutputDataFunctionCallCodec.ValueFor | lib/vellum_ai/types/workflow_result_event_output_data_function_call.rb:65 | `Hash#[]` finds the wire string stored under a key, or none when the key is absent |
| WorkflowResultEventOutputDataFunctionCallCodec.DecodeState | lib/vellum_ai/types/workflow_result_event_output_data_function_call.rb:46 | `state` becomes a key exactly when it is a String the Hash holds, and then a key holding that String; anything else is kept raw |
| WorkflowResultEventOutputDataFunctionCallCodec.EncodeState | lib/vellum_ai/types/workflow_result_event_output_data_function_call.rb:65 | a key is written as a String: one the Hash holds under it, or the key's own name when the Hash lacks it; a raw value is written unchanged |
| WorkflowResultEventOutputDataFunctionCallCodec.WireStateRoundTrip | lib/vellum_ai/types/workflow_result_event_output_data_function_call.rb:46-65 | every wire `state` value decodes and encodes back to itself |
| WorkflowResultEventOutputDataFunctionCallCodec.StateRoundTrip | lib/vellum_ai/types/workflow_result_event_output_data_function_call.rb:46-65 | a key of the Hash, or a raw value that is not a wire string, encodes and decodes back to itself |
| WorkflowResultEventOutputDataFunctionCallCodec.FromJson | lib/vellum_ai/types/workflow_result_event_output_data_function_call.rb:41-55 | `id`, `name`, `node_id`, `delta` read by name; `state` is a key exactly when the Hash holds its wire value and encodes back to it; `value` nil-guarded through the function-call decoder |
| WorkflowResultEventOutputDataFunctionCallCodec.ToJson | lib/vellum_ai/types/workflow_result_event_output_data_function_call.rb:61-69 | the output has exactly `id`, `name`, `state`, `node_id`, `delta`, `value`, with `state` as its wire value |
| WorkflowResultEventOutputDataFunctionCallCodec.ValidateRaw | lib/vellum_ai/types/workflow_result_event_output_data_function_call.rb:76-82 | never passes: `id` and `name` are checked first, then `is_a?` on the state Hash raises |
| WorkflowResultEventOutputDataFunctionCallCodec.StateCheck | lib/vellum_ai/types/workflow_result_event_output_data_function_call.rb:79 | the intended check: `state` passes exactly when it is one of the Hash's wire strings |
| WorkflowResultEventOutputDataFunctionCallCodec.IntendedValidateRaw | lib/vellum_ai/types/workflow_result_event_output_data_function_call.rb:76-82 | passes exactly when every member has its declared class, with `state` checked against the Hash's wire strings; the first failing check raises naming its field, and a non-nil `value` gets the function-call validator's outcome |
| WorkflowResultEventOutputDataFunctionCallCodec.StableCodec | lib/vellum_ai/types/workflow_result_event_output_data_function_call.rb:41-69 | stable whenever the function-call codec is and the Hash holds each key once |
| WorkflowResultEventOutputDataFunctionCallCodec.ValidatorRejectsWellTypedEncoding | lib/vellum_ai/types/workflow_result_event_output_data_function_call.rb:65-79 | the encoding of a well-typed record fails validation as written and passes the intended validator |
| ExecutionVellumValueCodec.VariantFor | lib/vellum_ai/types/execution_vellum_value.rb:35-51 | a variant is selected only by a String equal to its tag |
| ExecutionVellumValueCodec.TagsDispatchToTheirVariant | lib/vellum_ai/types/execution_vellum_value.rb:35-51 | each of the eight tags selects its own variant, so the tags are pairwise distinct |
| ExecutionVellumValueCodec.DecoderVariant | lib/vellum_ai/types/execution_vellum_value.rb:35-54 | the decoder run is the one the tag names, or STRING's when it names none |
| ExecutionVellumValueCodec.FromJson | lib/vellum_ai/types/execution_vellum_value.rb:33-56 | the chosen variant's decoder runs on the whole input; decode fails only when that decoder does; the discriminant is the original `type`, even on the fallback |
| ExecutionVellumValueCodec.ToJson | lib/vellum_ai/types/execution_vellum_value.rb:61-83 | raises exactly on a known tag; otherwise returns the member's own encoding, without the discriminant |
| ExecutionVellumValueCodec.IntendedToJson | lib/vellum_ai/types/execution_vellum_value.rb:62-80 | the intended encoding carries the discriminant under `type`: merged into the member's keys, or beside it under `value` |
| ExecutionVellumValueCodec.ValidateRaw | lib/vellum_ai/types/execution_vellum_value.rb:89-110 | a known tag hands the object to its variant's validator; any other or absent tag raises |
| ExecutionVellumValueCodec.Factory | lib/vellum_ai/types/execution_vellum_value.rb:120-166 | each factory keeps the member unchanged and stores its fixed tag, which selects the member's variant |
| ExecutionVellumValueCodec.ConstructedAreConsistent | lib/vellum_ai/types/execution_vellum_value.rb:17-166 | every envelope `from_json` or a factory builds pairs its member with the variant its discriminant selects |
| ExecutionVellumValueCodec.OnlyFallbackEnvelopesEncode | lib/vellum_ai/types/execution_vellum_value.rb:61-166 | only envelopes decoded from an unknown tag encode, as the STRING member's encoding; every factory-built envelope fails to encode |
| ExecutionVellumValueCodec.ValidateStricterThanDecode | lib/vellum_ai/types/execution_vellum_value.rb:52-108 | an object with an unknown tag decodes whenever the STRING decoder accepts it, but never validates |
| ExecutionVellumValueCodec.DecodeThenEncode | lib/vellum_ai/types/execution_vellum_value.rb:33-83 | decode then encode fails exactly on a known tag, and otherwise re-encodes the STRING member without the tag |
| ExecutionVellumValueCodec.IntendedEncodingDispatchesBack | lib/vellum_ai/types/execution_vellum_value.rb:35-78 | the intended encoding of a known-tag envelope decodes to the same variant and discriminant |
| TestSuiteRunExecConfigRequestCodec.VariantFor | lib/vellum_ai/types/test_suite_run_exec_config_request.rb:29-33 | a variant is selected only by a String equal to its tag |
| TestSuiteRunExecConfigRequestCodec.TagsDispatchToTheirVariant | lib/vellum_ai/types/test_suite_run_exec_config_request.rb:29-33 | each tag selects its own variant, so the two tags are distinct |
| TestSuiteRunExecConfigRequestCodec.DecoderVariant | lib/vellum_ai/types/test_suite_run_exec_config_request.rb:29-36 | the decoder run is the one the tag names, or the deployment-release-tag one when it names none |
| TestSuiteRunExecConfigRequestCodec.FromJson | lib/vellum_ai/types/test_suite_run_exec_config_request.rb:27-38 | the chosen variant's decoder runs on the whole input; the discriminant is the original `type` |
| TestSuiteRunExecConfigRequestCodec.ToJson | lib/vellum_ai/types/test_suite_run_exec_config_request.rb:43-53 | raises exactly on a known tag; otherwise returns the member's own encoding |
| TestSuiteRunExecConfigRequestCodec.IntendedToJson | lib/vellum_ai/types/test_suite_run_exec_config_request.rb:44-51 | the intended encoding carries the discriminant under `type` |
| TestSuiteRunExecConfigRequestCodec.ValidateRaw | lib/vellum_ai/types/test_suite_run_exec_config_request.rb:59-68 | a known tag hands the object to its variant's validator; any other or absent tag raises |
| TestSuiteRunExecConfigRequestCodec.Factory | lib/vellum_ai/types/test_suite_run_exec_config_request.rb:80-88 | each factory keeps the member unchanged and stores its fixed tag |
| TestSuiteRunExecConfigRequestCodec.ConstructedAreConsistent | lib/vellum_ai/types/test_suite_run_exec_config_request.rb:11-88 | every envelope that can be built pairs its member with the variant its discriminant selects |
| TestSuiteRunExecConfigRequestCodec.OnlyFallbackEnvelopesEncode | lib/vellum_ai/types/test_suite_run_exec_config_request.rb:43-88 | only envelopes decoded from an unknown tag encode; every factory-built envelope fails to encode |
| TestSuiteRunExecConfigRequestCodec.ValidateStricterThanDecode | lib/vellum_ai/types/test_suite_run_exec_config_request.rb:34-66 | an unknown tag decodes through the fallback but never validates |
| TestSuiteRunExecConfigRequestCodec.DecodeThenEncode | lib/vellum_ai/types/test_suite_run_exec_config_request.rb:27-53 | decode then encode fails exactly on a known tag |
| TestSuiteRunExecConfigRequestCodec.IntendedEncodingDispatchesBack | lib/vellum_ai/types/test_suite_run_exec_config_request.rb:29-48 | the intended encoding of a known-tag envelope decodes to the same variant and discriminant |

## Left out

- JSON text. `JSON.parse` and `Hash#to_json` are library code. The model works on parsed values, so text, escaping and number formatting are not captured.
- OpenStruct versus Hash access. Both are modelled as `Json.Get`. For a member read directly (not through a nested codec), `from_json` stores an OpenStruct wherever the parsed value holds an object, directly or inside an array, and the model stores the parsed object. Ruby's `to_json` writes an OpenStruct as its `to_s` string (`"#<OpenStruct a=1>"`), while the model's `ToJson` writes the object back. The round-trip lemmas below therefore hold in Ruby only when the directly read members hold no JSON object at any depth.
- WorkflowOutputStringCodec.StableCodec: holds in Ruby only when `id`, `name` and `value` hold no JSON object, directly or inside an array (OpenStruct `to_s`, above). The same goes for WorkflowOutputStringCodec.RoundTrip.
- WorkflowRequestStringInputRequestCodec.StableCodec: holds in Ruby only when `name` and `value` hold no JSON object, at any depth. The same goes for WorkflowRequestStringInputRequestCodec.RoundTrip.
- NumberVariableValueCodec.StableCodec: holds in Ruby only when `value` holds no JSON object, at any depth. The same goes for NumberVariableValueCodec.RoundTrip.
- WorkflowOutputImageCodec.StableCodec: holds in Ruby only when `id` and `name` hold no JSON object, at any depth.
- ExecutionErrorVellumValueCodec.StableCodec: holds in Ruby only when `id` and `name` hold no JSON object, at any depth.
- NodeInputCompiledFunctionCallCodec.StableCodec: holds in Ruby only when `node_input_id` and `key` hold no JSON object, at any depth.
- TestSuiteRunMetricErrorOutputCodec.StableCodec: holds in Ruby only when `name` holds no JSON object, at any depth.
- WorkflowResultEventOutputDataFunctionCallCodec.StableCodec: holds in Ruby only when `id`, `name`, `node_id`, `delta` and a raw `state` hold no JSON object, at any depth.
- Exception classes. NoMethodError, TypeError and RuntimeError are told apart only by cause (`Codecs.Failure`). Every non-object input to a record decoder or validator is `NotAnObject`, whichever method Ruby finds missing first.
- Floating point. A JSON number keeps only its Integer-or-Float class; no arithmetic is done on it.
- Nested codecs. `FunctionCall`, `VellumImage`, `VellumError`, `ChatMessage`, `SearchResult`, `DocumentIndexRead`, the six other `Execution*VellumValue` variants and the two release-tag exec config requests are parameters. Their source is not part of this model.
- The contents of `WORKFLOW_NODE_RESULT_EVENT_STATE`. The Hash is a parameter, and its constant file is not part of this model.
- `is_a?` and `kind_of?` delegation on the unions (`execution_vellum_value.rb:18, 116-118`). This is Ruby reflection. The alias at line 18 comes before the override, so `kind_of?` is not delegated either way.
- The private constructor of the unions. Dafny cannot hide a datatype constructor, so `Constructible` states which envelopes can exist and the lemmas about it assume only those.
- The `{ "type": @discriminant, value: @member }` value computed in the unions' fallback branch. It is thrown away and raises nothing, so it has no counterpart in `ToJson`.
- `lib/requests.rb`: Faraday connections, retries, timeouts and headers. This is transport code with no codec logic.
- ExecutionChatHistoryVellumValueCodec.RoundTrip: covers only a record whose `value` is present. A nil `value` does not round-trip, as NilValueEncodesButDoesNotDecode shows. It also holds in Ruby only when `id` and `name` hold no JSON object, at any depth.
- TestSuiteRunExecutionSearchResultsOutputCodec.RoundTrip: covers only a record whose `value` is present, for the same reason. It also holds in Ruby only when `output_variable_id` holds no JSON object, at any depth.
- PaginatedDocumentIndexReadListCodec.RoundTrip: covers only a list whose `results` is present, for the same reason. It also holds in Ruby only when `count`, `next` and `previous` hold no JSON object, at any depth.
- WorkflowResultEventOutputDataFunctionCallCodec.StateRoundTrip: assumes no two keys of the Hash share a wire string, and that a raw value is never a wire string. The Hash's contents are not part of this model.

## Findings

| source | as written | input that shows it | evidently intended | confidence | as-written member | corrected member |
|---|---|---|---|---|---|---|
| lib/vellum_ai/types/execution_vellum_value.rb:61-83 | every known-tag branch evaluates `{ **@member.to_json, ... }`, and `**` on the String that `to_json` returns raises TypeError; the branch's value would be discarded anyway, since line 82 returns the member's bare encoding | `ExecutionVellumValue.string(member: m).to_json`, or any envelope decoded from `{"type": "STRING", ...}` | the member's encoding with `type` merged in, so that decode can dispatch it again | high; not executed | ExecutionVellumValueCodec.OnlyFallbackEnvelopesEncode | ExecutionVellumValueCodec.IntendedToJson |
| lib/vellum_ai/types/test_suite_run_exec_config_request.rb:43-53 | the same: both known-tag branches double-splat a String, and the method returns the member's bare encoding | `TestSuiteRunExecConfigRequest.workflow_release_tag(member: m).to_json` | the member's encoding with `type` merged in | high; not executed | TestSuiteRunExecConfigRequestCodec.OnlyFallbackEnvelopesEncode | TestSuiteRunExecConfigRequestCodec.IntendedToJson |
| lib/vellum_ai/types/paginated_document_index_read_list.rb:59 | validates `obj.next_`, a member the wire format never has, so `next` is never checked | `{"next": 5}` | check `obj.next`, the wire name that `from_json` reads and `to_json` writes | high; not executed | PaginatedDocumentIndexReadListCodec.WrongTypedNextPasses | PaginatedDocumentIndexReadListCodec.IntendedValidateRaw |
| lib/vellum_ai/types/workflow_result_event_output_data_function_call.rb:79 | passes the state Hash to `is_a?`, which raises TypeError for every `state`, so validation can never pass | the encoding of any record with String `id`, `name` and `node_id` and a known `state` | `state` must be one of the Hash's wire strings | high; not executed | WorkflowResultEventOutputDataFunctionCallCodec.ValidatorRejectsWellTypedEncoding | WorkflowResultEventOutputDataFunctionCallCodec.IntendedValidateRaw |
