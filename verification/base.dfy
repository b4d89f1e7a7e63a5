/** Values that the inventory package passes around: dynamically typed JSON
    values as Go decodes them into `interface{}`, the 64-bit integers of the
    Go code, and the failure-compatible Result used for its `(value, error)`
    returns. */
module Base {

  const Int64Min: int := -0x8000_0000_0000_0000
  const Int64Max: int := 0x7FFF_FFFF_FFFF_FFFF

  /** Go's `int64` (and `int` on a 64-bit platform). */
  type int64 = x: int | Int64Min <= x <= Int64Max

  /** A dynamically typed value held in a `map[string]interface{}`.
      `JFloat` is a `float64` (every JSON number decodes to one); `JInt64`
      and `JInt` are the Go-side integers that the code itself stores into
      such maps before they are serialised. A missing key and a JSON `null`
      are both `JNull`, Go's `nil`. */
  datatype Json =
    | JNull
    | JBool(b: bool)
    | JFloat(f: real)
    | JInt64(i: int64)
    | JInt(i: int64)
    | JString(s: string)
    | JArray(items: seq<Json>)
    | JObject(fields: map<string, Json>)

  /** A JSON object, `map[string]interface{}`. */
  type Body = map<string, Json>

  /** The key under which a snapshot carries its version number. */
  const VersionKey := "version"

  /** Go's `m[k]` on a `map[string]interface{}`: `nil` when the key is absent. */
  function Get(m: Body, k: string): (v: Json)
    ensures k !in m ==> v == JNull
    ensures k in m ==> v == m[k]
  {
    if k in m then m[k] else JNull
  }

  /** ASCII lower-casing, the folding `strings.EqualFold` and
      `encoding/json`'s key matching apply to ASCII letters. */
  function FoldChar(c: char): char {
    if 'A' <= c <= 'Z' then (c as int + 32) as char else c
  }

  /** The text with every ASCII letter lower-cased. */
  function Lower(s: string): (r: string)
    ensures |r| == |s|
    ensures forall i :: 0 <= i < |s| ==> r[i] == FoldChar(s[i])
  {
    seq(|s|, i requires 0 <= i < |s| => FoldChar(s[i]))
  }

  /** `strings.EqualFold` restricted to ASCII case folding: the two texts
      are the same once lower-cased. */
  function EqualFold(a: string, b: string): (r: bool)
    ensures r <==> Lower(a) == Lower(b)
    ensures r ==> |a| == |b|
  {
    var eq := |a| == |b| && forall i :: 0 <= i < |a| ==> FoldChar(a[i]) == FoldChar(b[i]);
    assert eq ==> Lower(a) == Lower(b);
    eq
  }

  /** Errors, one constructor per distinct failure the core reports. */
  datatype Error =
    | NotFound(assetType: string, id: string)
    | InvalidAssetType(assetType: string)
    | AlreadyExists(id: string)
    | Upstream
    | NotCreated
    | UnparseableVersion(value: Json)
    | BadAssetData
    | FieldMustBeString(field: string)
    | FieldValueRequired(field: string)
    | FieldRequired(field: string)

  datatype Option<+T> = None | Some(value: T)

  datatype Result<+T> = Ok(value: T) | Err(error: Error) {
    predicate IsFailure() { Err? }

    function PropagateFailure<U>(): Result<U>
      requires Err?
    {
      Err(error)
    }

    function Extract(): T
      requires Ok?
    {
      value
    }
  }

  /** Truncation toward zero, as Go converts a float to an integer. */
  function Trunc(f: real): int {
    if f >= 0.0 then f.Floor else -((-f).Floor)
  }

  /** `Trunc` drops the fractional part: the result lies between zero and
      f and is less than one away from f. */
  lemma TruncTowardZero(f: real)
    ensures f >= 0.0 ==> 0 <= Trunc(f) && Trunc(f) as real <= f < Trunc(f) as real + 1.0
    ensures f < 0.0 ==> Trunc(f) <= 0 && Trunc(f) as real - 1.0 < f <= Trunc(f) as real
  {
  }

  /** Go's `int64(f)` for a `float64` f. In range it truncates toward zero;
      out of range the Go specification leaves the value to the
      implementation, and the model takes the amd64 result, the minimum
      int64. */
  function FloatToInt64(f: real): (r: int64)
    ensures -9223372036854775809.0 < f < 9223372036854775808.0 ==>
              (f >= 0.0 ==> 0 <= r && r as real <= f < r as real + 1.0) &&
              (f < 0.0 ==> r <= 0 && r as real - 1.0 < f <= r as real)
    ensures f >= 9223372036854775808.0 || f <= -9223372036854775809.0 ==> r == Int64Min
  {
    TruncTowardZero(f);
    var t := Trunc(f);
    if Int64Min <= t <= Int64Max then t else Int64Min
  }

  /** True when f is a whole number that fits an int64, the only numbers
      `encoding/json` decodes into an `int64` struct field. */
  predicate IsInt64Float(f: real) {
    f == f.Floor as real && Int64Min <= f.Floor <= Int64Max
  }
}
