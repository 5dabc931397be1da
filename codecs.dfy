/** What every generated record codec is built from: the errors Ruby raises, the
    nested codecs a record delegates to, the `is_a?` checks of `validate_raw`, and
    the nil-guarded and `map`-based decoding of nested members. */
module Codecs {
  import opened Wrappers
  import opened Json

  /** The exceptions a codec raises, by cause. */
  datatype Failure =
    /** A member was read from a parsed value that is not an object (NoMethodError). */
    | NotAnObject
    /** A method the receiver lacks, e.g. `map` on nil (NoMethodError). */
    | NoMethod(name: string)
    /** "Passed value for field obj.<field> is not the expected type, validation failed." */
    | FieldTypeMismatch(field: string)
    /** "Passed value matched no type within the union, validation failed." */
    | NoUnionMatch
    /** `is_a?` was given something that is not a class or module (TypeError). */
    | ClassOrModuleRequired
    /** `**` was applied to a String (TypeError: no implicit conversion of String into Hash). */
    | NoImplicitConversionToHash

  /** The three class methods of a generated type: `from_json` on a parsed value,
      `to_json` to a JSON value, and `validate_raw` on a parsed object. Used for the
      nested types whose source is not part of this model, and to plug records into
      unions and into each other. */
  datatype Codec<!T> = Codec(
    decode: Json -> Result<T, Failure>,
    encode: T -> Json,
    validate: Json -> Outcome<Failure>)

  /** Decoding what the codec encoded succeeds and encodes back to the same JSON, and
      nothing encodes to null (a DTO's `to_json` is always an object). This is what
      round-tripping means for a record whose decode also captures the whole input. */
  ghost predicate Stable<T(!new)>(c: Codec<T>) {
    forall x :: c.encode(x) != JNull && c.decode(c.encode(x)).Success?
      && c.encode(c.decode(c.encode(x)).value) == c.encode(x)
  }

  /** The classes `validate_raw` tests parsed values against. */
  datatype RubyClass = StringClass | IntegerClass | FloatClass | ArrayClass

  /** The argument given to `is_a?`: a class, or a constant that is a Hash. */
  datatype IsAArgument = AClass(c: RubyClass) | AHash

  /** `v.is_a?(arg)` for a parsed value `v`; `is_a?` raises on an argument that is not
      a class or module. A JSON integer is an Integer and never a Float, and the
      other way round. */
  function IsA(v: Json, arg: IsAArgument): (r: Result<bool, Failure>)
    ensures arg.AHash? <==> r.Failure?
    ensures r.Failure? ==> r.error == ClassOrModuleRequired
    ensures arg == AClass(IntegerClass) ==> r == Success(v.JInt?)
    ensures arg == AClass(FloatClass) ==> r == Success(v.JFloat?)
  {
    match arg
    case AHash => Failure(ClassOrModuleRequired)
    case AClass(c) =>
      Success(match c
        case StringClass => v.JString?
        case IntegerClass => v.JInt?
        case FloatClass => v.JFloat?
        case ArrayClass => v.JArray?)
  }

  /** `obj.field.is_a?(C) != false || raise(...)`: a required field; nil fails the check. */
  function Required(field: string, v: Json, arg: IsAArgument): (r: Outcome<Failure>)
    ensures r.Pass? <==> IsA(v, arg) == Success(true)
    ensures r.Fail? && arg.AClass? ==> r.error == FieldTypeMismatch(field)
    ensures v.JNull? && arg.AClass? ==> r == Fail(FieldTypeMismatch(field))
  {
    match IsA(v, arg)
    case Failure(e) => Fail(e)
    case Success(b) => if b then Pass else Fail(FieldTypeMismatch(field))
  }

  /** `obj.field&.is_a?(C) != false || raise(...)`: `&.` skips the call on nil, so nil
      passes and any other value must be an instance of C. */
  function Optional(field: string, v: Json, arg: IsAArgument): (r: Outcome<Failure>)
    ensures v.JNull? ==> r.Pass?
    ensures !v.JNull? ==> r == Required(field, v, arg)
  {
    if v.JNull? then Pass else Required(field, v, arg)
  }

  /** `obj.field.nil? || Nested.validate_raw(obj: obj.field)`. */
  function ValidateNullable(v: Json, validate: Json -> Outcome<Failure>): (r: Outcome<Failure>)
    ensures v.JNull? ==> r.Pass?
    ensures !v.JNull? ==> r == validate(v)
  {
    if v.JNull? then Pass else validate(v)
  }

  /** `parsed_json[key].nil? ? nil : Nested.from_json(json_object: parsed_json[key].to_json)`. */
  function DecodeNullable<T>(v: Json, decode: Json -> Result<T, Failure>): (r: Result<Option<T>, Failure>)
    ensures v.JNull? ==> r == Success(None)
    ensures !v.JNull? ==> (r.Success? <==> decode(v).Success?)
    ensures !v.JNull? && r.Success? ==> r.value == Some(decode(v).value)
    ensures !v.JNull? && r.Failure? ==> r == Failure(decode(v).error)
  {
    if v.JNull? then Success(None)
    else
      var x :- decode(v);
      Success(Some(x))
  }

  /** A nested DTO field inside a hash literal's `to_json`: nil is written as null,
      anything else as its own `to_json`. */
  function EncodeNullable<T>(x: Option<T>, encode: T -> Json): (r: Json)
    ensures x.None? ==> r == JNull
    ensures x.Some? ==> r == encode(x.value)
  {
    match x
    case None => JNull
    case Some(y) => encode(y)
  }

  /** What `v.map` iterates over: an Array's elements, or a Hash's `[key, value]`
      pairs in order; any other receiver has no `map` and raises. */
  function MapReceiver(v: Json): (r: Result<seq<Json>, Failure>)
    ensures r.Success? <==> v.JArray? || v.JObject?
    ensures v.JArray? ==> r == Success(v.items)
    ensures v.JObject? ==> r.Success? && |r.value| == |v.members|
    ensures v.JObject? ==> forall i :: 0 <= i < |v.members| ==>
      r.value[i] == JArray([JString(v.members[i].0), v.members[i].1])
    ensures r.Failure? ==> r.error == NoMethod("map")
  {
    match v
    case JArray(items) => Success(items)
    case JObject(ms) => Success(seq(|ms|, i requires 0 <= i < |ms| => JArray([JString(ms[i].0), ms[i].1])))
    case _ => Failure(NoMethod("map"))
  }

  /** `items.map { |v| Nested.from_json(json_object: v.to_json) }`: every element is
      decoded, in order; the first element whose decode raises ends the map with
      that error. */
  function DecodeEach<T>(items: seq<Json>, decode: Json -> Result<T, Failure>): (r: Result<seq<T>, Failure>)
    ensures r.Success? <==> forall i :: 0 <= i < |items| ==> decode(items[i]).Success?
    ensures r.Success? ==> |r.value| == |items|
    ensures r.Success? ==> forall i :: 0 <= i < |items| ==> decode(items[i]) == Success(r.value[i])
    ensures r.Failure? ==> exists i :: (0 <= i < |items| && decode(items[i]) == Failure(r.error)
      && forall k :: 0 <= k < i ==> decode(items[k]).Success?)
  {
    if |items| == 0 then Success([])
    else
      var head :- decode(items[0]);
      var tail :- DecodeEach(items[1..], decode);
      assert forall i :: 1 <= i < |items| ==> items[i] == items[1..][i - 1];
      Success([head] + tail)
  }

  /** `parsed_json[key].map { ... }` for an array-of-DTO member: there is no nil guard,
      so an absent or null member raises. */
  function DecodeMapped<T>(v: Json, decode: Json -> Result<T, Failure>): (r: Result<seq<T>, Failure>)
    ensures v.JNull? ==> r == Failure(NoMethod("map"))
    ensures r.Success? <==> (MapReceiver(v).Success?
      && forall i :: 0 <= i < |MapReceiver(v).value| ==> decode(MapReceiver(v).value[i]).Success?)
    ensures r.Success? ==> MapDecodesTo(v, decode, r.value)
  {
    var items :- MapReceiver(v);
    DecodeEach(items, decode)
  }

  /** `xs` is what `v.map { |e| Nested.from_json(json_object: e.to_json) }` returns:
      `v` has a `map`, and what it iterates over decodes element by element, in
      order, to `xs`. */
  ghost predicate MapDecodesTo<T>(v: Json, decode: Json -> Result<T, Failure>, xs: seq<T>) {
    && MapReceiver(v).Success?
    && |xs| == |MapReceiver(v).value|
    && forall i :: 0 <= i < |xs| ==> decode(MapReceiver(v).value[i]) == Success(xs[i])
  }

  /** Each element's own `to_json`, in order. */
  function EncodeEach<T>(xs: seq<T>, encode: T -> Json): (js: seq<Json>)
    ensures |js| == |xs|
    ensures forall i :: 0 <= i < |xs| ==> js[i] == encode(xs[i])
  {
    seq(|xs|, i requires 0 <= i < |xs| => encode(xs[i]))
  }

  /** An array-of-DTO field inside a hash literal's `to_json`: nil as null, an array
      as the array of its elements' encodings. */
  function EncodeArray<T>(xs: Option<seq<T>>, encode: T -> Json): (r: Json)
    ensures xs.None? ==> r == JNull
    ensures xs.Some? ==> r.JArray? && |r.items| == |xs.value|
    ensures xs.Some? ==> forall i :: 0 <= i < |xs.value| ==> r.items[i] == encode(xs.value[i])
  {
    match xs
    case None => JNull
    case Some(ys) => JArray(EncodeEach(ys, encode))
  }

  /** Mapping a stable decoder over encoded elements succeeds, keeps the length and
      order, and re-encodes to the same elements. */
  lemma DecodeEachStable<T(!new)>(c: Codec<T>, xs: seq<T>)
    requires Stable(c)
    ensures DecodeEach(EncodeEach(xs, c.encode), c.decode).Success?
    ensures EncodeEach(DecodeEach(EncodeEach(xs, c.encode), c.decode).value, c.encode) == EncodeEach(xs, c.encode)
  {
    var ys := DecodeEach(EncodeEach(xs, c.encode), c.decode).value;
    assert forall i :: 0 <= i < |xs| ==> c.decode(c.encode(xs[i])) == Success(ys[i]);
  }

  /** The nil-guarded nested field round-trips through a stable codec. */
  lemma DecodeNullableStable<T(!new)>(c: Codec<T>, x: Option<T>)
    requires Stable(c)
    ensures DecodeNullable(EncodeNullable(x, c.encode), c.decode).Success?
    ensures EncodeNullable(DecodeNullable(EncodeNullable(x, c.encode), c.decode).value, c.encode)
      == EncodeNullable(x, c.encode)
  {
  }

  /** The array field round-trips through a stable element codec when it is present;
      an absent (nil) array encodes to null, which decode then rejects. */
  lemma DecodeMappedStable<T(!new)>(c: Codec<T>, xs: seq<T>)
    requires Stable(c)
    ensures DecodeMapped(EncodeArray(Some(xs), c.encode), c.decode).Success?
    ensures EncodeArray(Some(DecodeMapped(EncodeArray(Some(xs), c.encode), c.decode).value), c.encode)
      == EncodeArray(Some(xs), c.encode)
    ensures DecodeMapped(EncodeArray(None, c.encode), c.decode) == Failure(NoMethod("map"))
  {
    DecodeEachStable(c, xs);
  }
}
