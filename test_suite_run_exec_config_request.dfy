/** `TestSuiteRunExecConfigRequest`: a tagged union of the two ways a test suite run
    selects what to execute, told apart by the `type` member. The variants' own codecs
    are parameters: their source is not part of this model. */
module TestSuiteRunExecConfigRequestCodec {
  import opened Wrappers
  import opened Json
  import opened Codecs

  /** The two variants, one per `when` of the dispatch. */
  datatype Variant = DeploymentReleaseTag | WorkflowReleaseTag

  /** The `type` string that selects a variant, and that its factory stores. */
  function TagOf(v: Variant): string {
    match v
    case DeploymentReleaseTag => "DEPLOYMENT_RELEASE_TAG"
    case WorkflowReleaseTag => "WORKFLOW_RELEASE_TAG"
  }

  /** `case t when "DEPLOYMENT_RELEASE_TAG" ... when "WORKFLOW_RELEASE_TAG"`: the
      variant whose tag `t` is, if any; `when` compares with String equality, so a
      non-String never matches. */
  function VariantFor(t: Json): (r: Option<Variant>)
    ensures r.Some? ==> t == JString(TagOf(r.value))
  {
    if !t.JString? then None
    else if t.s == "DEPLOYMENT_RELEASE_TAG" then Some(DeploymentReleaseTag)
    else if t.s == "WORKFLOW_RELEASE_TAG" then Some(WorkflowReleaseTag)
    else None
  }

  /** Each tag selects its own variant, so the two tags are distinct. */
  lemma TagsDispatchToTheirVariant(v: Variant)
    ensures VariantFor(JString(TagOf(v))) == Some(v)
    ensures forall w :: TagOf(w) == TagOf(v) ==> w == v
  {
    forall w | TagOf(w) == TagOf(v) ensures w == v {
      assert VariantFor(JString(TagOf(w))) == Some(w);
    }
  }

  /** The variant whose decoder `from_json` runs for tag `t`: the one `t` names, and
      the deployment-release-tag variant for any other or absent tag. */
  function DecoderVariant(t: Json): (v: Variant)
    ensures t == JString(TagOf(v)) || (v == DeploymentReleaseTag && VariantFor(t).None?)
  {
    match VariantFor(t)
    case Some(v) => v
    case None => DeploymentReleaseTag
  }

  /** A decoded variant value, with the variant it belongs to. `M` stands for any of
      the variants' record types. */
  datatype Member<M> = Member(variant: Variant, record: M)

  /** The envelope: `member` and `discriminant`, both assigned once by the private
      `new`. The discriminant is whatever `type` held, nil included. */
  datatype TestSuiteRunExecConfigRequest<M> = TestSuiteRunExecConfigRequest(member: Member<M>, discriminant: Json)

  /** `from_json`: reads `type` and runs the chosen variant's decoder on the whole
      input, `type` included; the discriminant kept is the original `type`, even when
      the deployment-release-tag decoder ran as the fallback. Only the variant's decoder can fail on
      an object. */
  function FromJson<M>(j: Json, codecs: Variant -> Codec<M>): (r: Result<TestSuiteRunExecConfigRequest<M>, Failure>)
    ensures !j.JObject? ==> r == Failure(NotAnObject)
    ensures j.JObject? ==> (r.Success? <==> codecs(DecoderVariant(Get(j, "type"))).decode(j).Success?)
    ensures j.JObject? && r.Failure? ==> r.error == codecs(DecoderVariant(Get(j, "type"))).decode(j).error
    ensures r.Success? ==> Reads(j, "type", r.value.discriminant)
    ensures r.Success? ==> (r.value.discriminant == JString(TagOf(r.value.member.variant))
      || (r.value.member.variant == DeploymentReleaseTag && VariantFor(r.value.discriminant).None?))
    ensures r.Success? ==> codecs(r.value.member.variant).decode(j) == Success(r.value.member.record)
  {
    if !j.JObject? then Failure(NotAnObject)
    else
      var t := Get(j, "type");
      var v := DecoderVariant(t);
      var record :- codecs(v).decode(j);
      Success(TestSuiteRunExecConfigRequest(Member(v, record), t))
  }

  /** `to_json` as written: a known tag first evaluates `{ **@member.to_json, ... }`,
      and `**` on the String that `to_json` returns raises; any other discriminant
      reaches the last line, which returns the member's own encoding. The
      discriminant never appears in what is returned. */
  function ToJson<M>(x: TestSuiteRunExecConfigRequest<M>, codecs: Variant -> Codec<M>): (r: Result<Json, Failure>)
    ensures r.Failure? <==> VariantFor(x.discriminant).Some?
    ensures r.Failure? ==> r.error == NoImplicitConversionToHash
    ensures r.Success? ==> r.value == codecs(x.member.variant).encode(x.member.record)
  {
    if VariantFor(x.discriminant).Some? then Failure(NoImplicitConversionToHash)
    else Success(codecs(x.member.variant).encode(x.member.record))
  }

  /** What the known-tag branches and the fallback branch of `to_json` evidently
      intend: the member's encoding with `type` set to the discriminant, and
      `{ "type" => discriminant, "value" => member }` for any other discriminant. */
  function IntendedToJson<M>(x: TestSuiteRunExecConfigRequest<M>, codecs: Variant -> Codec<M>): (r: Json)
    ensures r.JObject?
    ensures Get(r, "type") == x.discriminant
    ensures VariantFor(x.discriminant).Some? ==> forall k :: k != "type" ==>
      Get(r, k) == Get(codecs(x.member.variant).encode(x.member.record), k)
    ensures VariantFor(x.discriminant).None? ==> Get(r, "value") == codecs(x.member.variant).encode(x.member.record)
  {
    var encoded := codecs(x.member.variant).encode(x.member.record);
    if VariantFor(x.discriminant).Some? then Put(encoded, "type", x.discriminant)
    else
      var r := JObject([("type", x.discriminant), ("value", encoded)]);
      assert Keys(r) == ["type", "value"];
      ReadsDeterminesGet(r, "value", encoded);
      r
  }

  /** `validate_raw`: a known tag hands the whole object to that variant's validator;
      any other or absent tag raises. */
  function ValidateRaw<M>(obj: Json, codecs: Variant -> Codec<M>): (r: Outcome<Failure>)
    ensures !obj.JObject? ==> r == Fail(NotAnObject)
    ensures obj.JObject? && VariantFor(Get(obj, "type")).None? ==> r == Fail(NoUnionMatch)
    ensures obj.JObject? ==> forall v :: Get(obj, "type") == JString(TagOf(v)) ==> r == codecs(v).validate(obj)
  {
    if !obj.JObject? then Fail(NotAnObject)
    else
      match VariantFor(Get(obj, "type"))
      case None => Fail(NoUnionMatch)
      case Some(v) =>
        TagsDispatchToTheirVariant(v);
        codecs(v).validate(obj)
  }

  /** The factories `deployment_release_tag` and `workflow_release_tag`: the member
      unchanged, the factory's fixed tag as discriminant. */
  function Factory<M>(v: Variant, record: M): (u: TestSuiteRunExecConfigRequest<M>)
    ensures u.member.record == record
    ensures VariantFor(u.discriminant) == Some(u.member.variant) && u.member.variant == v
  {
    TagsDispatchToTheirVariant(v);
    TestSuiteRunExecConfigRequest(Member(v, record), JString(TagOf(v)))
  }

  /** `new` is private: every envelope comes from `from_json` or a factory. */
  ghost predicate Constructible<M(!new)>(u: TestSuiteRunExecConfigRequest<M>, codecs: Variant -> Codec<M>) {
    (exists j :: FromJson(j, codecs) == Success(u)) || (exists v :: u == Factory(v, u.member.record))
  }

  /** The member's variant is the one the discriminant selects. */
  ghost predicate Consistent<M>(u: TestSuiteRunExecConfigRequest<M>) {
    u.member.variant == DecoderVariant(u.discriminant)
  }

  /** Every envelope that can be built pairs its member with the variant its
      discriminant selects. */
  lemma ConstructedAreConsistent<M(!new)>(u: TestSuiteRunExecConfigRequest<M>, codecs: Variant -> Codec<M>)
    requires Constructible(u, codecs)
    ensures Consistent(u)
  {
    if exists j :: FromJson(j, codecs) == Success(u) {
      var j :| FromJson(j, codecs) == Success(u);
      assert Reads(j, "type", u.discriminant);
      TagsDispatchToTheirVariant(u.member.variant);
    } else {
      TagsDispatchToTheirVariant(u.member.variant);
    }
  }

  /** Only an envelope decoded from an unknown or absent tag encodes, and then as the
      deployment-release-tag variant's own encoding; every envelope a factory builds
      fails to encode. */
  lemma OnlyFallbackEnvelopesEncode<M(!new)>(u: TestSuiteRunExecConfigRequest<M>, codecs: Variant -> Codec<M>)
    requires Constructible(u, codecs)
    ensures ToJson(u, codecs).Success? ==> (u.member.variant == DeploymentReleaseTag && VariantFor(u.discriminant).None?
      && ToJson(u, codecs).value == codecs(DeploymentReleaseTag).encode(u.member.record))
    ensures (exists v :: u == Factory(v, u.member.record)) ==> ToJson(u, codecs) == Failure(NoImplicitConversionToHash)
  {
    ConstructedAreConsistent(u, codecs);
  }

  /** Decode is lenient where validation is strict: an object whose `type` names no
      variant still decodes whenever the deployment-release-tag decoder accepts it,
      yet never validates. */
  lemma ValidateStricterThanDecode<M>(j: Json, codecs: Variant -> Codec<M>)
    requires j.JObject? && VariantFor(Get(j, "type")).None?
    ensures FromJson(j, codecs).Success? <==> codecs(DeploymentReleaseTag).decode(j).Success?
    ensures ValidateRaw(j, codecs) == Fail(NoUnionMatch)
  {
  }

  /** Decoding and then encoding fails exactly when the input's `type` names a
      variant; otherwise it yields the deployment-release-tag variant's re-encoding
      of the input, without the tag. */
  lemma DecodeThenEncode<M>(j: Json, codecs: Variant -> Codec<M>)
    requires FromJson(j, codecs).Success?
    ensures ToJson(FromJson(j, codecs).value, codecs).Failure? <==> VariantFor(Get(j, "type")).Some?
    ensures VariantFor(Get(j, "type")).None? ==>
      ToJson(FromJson(j, codecs).value, codecs) == Success(codecs(DeploymentReleaseTag).encode(codecs(DeploymentReleaseTag).decode(j).value))
  {
  }

  /** With the tag written back, an envelope with a known tag decodes again to the same
      variant and discriminant, provided the variant's decoder accepts its encoding
      with `type` added. */
  lemma IntendedEncodingDispatchesBack<M>(x: TestSuiteRunExecConfigRequest<M>, codecs: Variant -> Codec<M>)
    requires Consistent(x) && VariantFor(x.discriminant).Some?
    requires codecs(x.member.variant).decode(IntendedToJson(x, codecs)).Success?
    ensures FromJson(IntendedToJson(x, codecs), codecs).Success?
    ensures FromJson(IntendedToJson(x, codecs), codecs).value.discriminant == x.discriminant
    ensures FromJson(IntendedToJson(x, codecs), codecs).value.member.variant == x.member.variant
  {
  }
}
