/** The parsed JSON value tree that the codecs read and build, and the two object
    operations they use: reading a member by name (Ruby's `hash[key]`, or an
    OpenStruct attribute) and building `{ **hash, key: value }`. */
module Json {

  /** A value as `JSON.parse` returns it. An object keeps its members in insertion
      order, as a Ruby Hash does. `JInt` is a number written without fraction or
      exponent (a Ruby Integer); `JFloat` is one written with them (a Ruby Float),
      kept as a real because nothing here does arithmetic on it. `JNull` is also
      how Ruby's `nil` is written throughout the model. */
  datatype Json =
    | JNull
    | JBool(b: bool)
    | JInt(i: int)
    | JFloat(r: real)
    | JString(s: string)
    | JArray(items: seq<Json>)
    | JObject(members: seq<(string, Json)>)

  /** The member names of an object, in order; a non-object has none. */
  function Keys(j: Json): seq<string> {
    if j.JObject? then seq(|j.members|, i requires 0 <= i < |j.members| => j.members[i].0) else []
  }

  /** A parsed object never repeats a member name (a later duplicate overwrites the earlier one). */
  ghost predicate UniqueKeys(j: Json) {
    j.JObject? ==> forall a, b :: 0 <= a < b < |j.members| ==> j.members[a].0 != j.members[b].0
  }

  /** The value of the first member named `key`, or nil when there is none. */
  function Lookup(ms: seq<(string, Json)>, key: string): (v: Json)
    ensures (forall i :: 0 <= i < |ms| ==> ms[i].0 != key) ==> v == JNull
    ensures (exists i :: 0 <= i < |ms| && ms[i].0 == key) ==> (key, v) in ms
    ensures forall i :: 0 <= i < |ms| && ms[i].0 == key && (forall k :: 0 <= k < i ==> ms[k].0 != key) ==> v == ms[i].1
  {
    if |ms| == 0 then JNull
    else if ms[0].0 == key then ms[0].1
    else
      assert forall i :: 1 <= i < |ms| ==> ms[i] == ms[1..][i - 1];
      Lookup(ms[1..], key)
  }

  /** `obj[key]` on a parsed object: the member's value, or nil when the member is absent.
      A value that is not an object has no members. */
  function Get(j: Json, key: string): (v: Json)
    ensures key !in Keys(j) ==> v == JNull
    ensures key in Keys(j) ==> (key, v) in j.members
  {
    if j.JObject? then
      assert forall i :: 0 <= i < |j.members| ==> Keys(j)[i] == j.members[i].0;
      Lookup(j.members, key)
    else JNull
  }

  /** `v` is what reading member `key` of `j` yields: that member's value when `j` has one,
      nil otherwise. Stated with membership only, independently of `Get`. */
  ghost predicate Reads(j: Json, key: string, v: Json) {
    if key in Keys(j) then (key, v) in j.members else v == JNull
  }

  /** In an object that names each member once, the member read is the member held. */
  lemma ReadsDeterminesGet(j: Json, key: string, v: Json)
    requires UniqueKeys(j) && Reads(j, key, v)
    ensures Get(j, key) == v
  {
    if key in Keys(j) {
      var a :| 0 <= a < |j.members| && j.members[a] == (key, v);
      var b :| 0 <= b < |j.members| && j.members[b] == (key, Get(j, key));
      assert a == b;
    }
  }

  /** `{ **j, key => v }`: the members of `j`, with `key` set to `v` where it already
      occurs and appended after them otherwise. */
  function Put(j: Json, key: string, v: Json): (r: Json)
    ensures r.JObject?
    ensures Get(r, key) == v
    ensures forall k :: k != key ==> Get(r, k) == Get(j, k)
    ensures Keys(r) == if key in Keys(j) then Keys(j) else Keys(j) + [key]
  {
    var ms := if j.JObject? then j.members else [];
    if key in Keys(j) then
      var rs := Replace(ms, key, v);
      LookupReplaceSame(ms, key, v);
      forall k | k != key ensures Lookup(rs, k) == Lookup(ms, k) {
        LookupReplaceOther(ms, key, v, k);
      }
      JObject(rs)
    else
      var rs := ms + [(key, v)];
      assert forall i :: 0 <= i < |ms| ==> ms[i].0 == Keys(j)[i];
      LookupAppend(ms, key, v, key);
      forall k | k != key ensures Lookup(rs, k) == Lookup(ms, k) {
        LookupAppend(ms, key, v, k);
      }
      JObject(rs)
  }

  /** Every member named `key` gets the value `v`; names and order are kept. */
  function Replace(ms: seq<(string, Json)>, key: string, v: Json): (rs: seq<(string, Json)>)
    ensures |rs| == |ms|
    ensures forall i :: 0 <= i < |rs| ==> rs[i].0 == ms[i].0
    ensures forall i :: 0 <= i < |rs| ==> rs[i].1 == if ms[i].0 == key then v else ms[i].1
  {
    if |ms| == 0 then []
    else [(ms[0].0, if ms[0].0 == key then v else ms[0].1)] + Replace(ms[1..], key, v)
  }

  lemma {:induction false} LookupReplaceSame(ms: seq<(string, Json)>, key: string, v: Json)
    requires exists i :: 0 <= i < |ms| && ms[i].0 == key
    ensures Lookup(Replace(ms, key, v), key) == v
  {
    if ms[0].0 != key {
      var i :| 0 <= i < |ms| && ms[i].0 == key;
      assert ms[1..][i - 1].0 == key;
      LookupReplaceSame(ms[1..], key, v);
    }
  }

  lemma {:induction false} LookupReplaceOther(ms: seq<(string, Json)>, key: string, v: Json, k: string)
    requires k != key
    ensures Lookup(Replace(ms, key, v), k) == Lookup(ms, k)
  {
    if |ms| > 0 {
      LookupReplaceOther(ms[1..], key, v, k);
    }
  }

  lemma {:induction false} LookupAppend(ms: seq<(string, Json)>, key: string, v: Json, k: string)
    requires forall i :: 0 <= i < |ms| ==> ms[i].0 != key
    ensures Lookup(ms + [(key, v)], k) == if k == key then v else Lookup(ms, k)
  {
    if |ms| > 0 {
      assert (ms + [(key, v)])[1..] == ms[1..] + [(key, v)];
      LookupAppend(ms[1..], key, v, k);
    }
  }
}
