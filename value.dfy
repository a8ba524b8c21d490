/** The JSON value of cppjson.hpp / cppjson.cpp: one tag (`enum Type`,
    cppjson.hpp:20-28) and the payload it selects, as a datatype whose six
    variants are in the order of the enum. Copying and assigning a C++ `JSON`
    are meant to have value semantics, which a datatype has by construction.

    The constructors' C++ bodies set the tag (and the payload for bool and
    double); `JSON(std::string)`, the `is*` queries, `size` and `get<T>` have
    empty or stub bodies in cppjson.cpp, so those are modelled from their
    names and doc comments, as noted at each. */
module Value {
  import opened Base

  /** A C++ `double`, as its IEEE-754 binary64 bit pattern. */
  type Double = bv64

  /** Neither NaN nor an infinity (`std::isnan` and `std::isinf` are both
      false): the 11 exponent bits are not all ones. */
  predicate IsFinite(d: Double) {
    (d >> 52) & 0x7FF != 0x7FF
  }

  /** `(size_t)-1` on a 64-bit target. */
  const SIZE_MAX: nat := 0xFFFF_FFFF_FFFF_FFFF

  datatype Json =
    | Bool(boolean: bool)
    | Number(number: Double)
    | String(text: Bytes)
    | Null
    /** A `std::map<std::string, JSON>`: its entries in iteration order. */
    | Object(entries: seq<(Bytes, Json)>)
    | Array(elements: seq<Json>)

  /** `std::string`'s `operator<`: lexicographic on unsigned bytes. */
  predicate KeyLess(a: Bytes, b: Bytes) {
    (|a| < |b| && a == b[..|a|]) ||
    exists k :: 0 <= k < |a| && k < |b| && a[..k] == b[..k] && a[k] < b[k]
  }

  /** Object keys are unique and in `std::map` iteration order, at every
      level of the tree. */
  predicate WellFormed(v: Json) {
    match v
    case Object(entries) =>
      (forall k :: 0 < k < |entries| ==> KeyLess(entries[k - 1].0, entries[k].0)) &&
      (forall k :: 0 <= k < |entries| ==> WellFormed(entries[k].1))
    case Array(elements) =>
      forall k :: 0 <= k < |elements| ==> WellFormed(elements[k])
    case _ => true
  }

  // ---------------------------------------------------------------------
  // Type queries (cppjson.cpp:48-53). The C++ bodies are stubs returning
  // `false`; each query is modelled as its name states: the tag is the one
  // it names.
  // ---------------------------------------------------------------------

  predicate IsBool(v: Json) { v.Bool? }
  predicate IsNumber(v: Json) { v.Number? }
  predicate IsString(v: Json) { v.String? }
  predicate IsNull(v: Json) { v.Null? }
  predicate IsObject(v: Json) { v.Object? }
  predicate IsArray(v: Json) { v.Array? }

  function QueryCount(v: Json): nat {
    (if IsBool(v) then 1 else 0) + (if IsNumber(v) then 1 else 0) +
    (if IsString(v) then 1 else 0) + (if IsNull(v) then 1 else 0) +
    (if IsObject(v) then 1 else 0) + (if IsArray(v) then 1 else 0)
  }

  /** A value has a single tag, so exactly one query holds of it. */
  lemma ExactlyOneQueryHolds(v: Json)
    ensures QueryCount(v) == 1
  {
  }

  // ---------------------------------------------------------------------
  // Accessors (cppjson.cpp:68-88)
  // ---------------------------------------------------------------------

  /** `size()` as its doc comment states: the element count of an array, the
      entry count of an object, and `(size_t)-1` for any other value. */
  function Size(v: Json): (n: nat)
    ensures IsArray(v) ==> n == |v.elements|
    ensures IsObject(v) ==> n == |v.entries|
    ensures !IsArray(v) && !IsObject(v) ==> n == SIZE_MAX
  {
    match v
    case Array(elements) => |elements|
    case Object(entries) => |entries|
    case _ => SIZE_MAX
  }

  // `get<T>` "should only work when the underlying value matches the
  // returning type": the mismatch is the TypeMismatch error.

  function GetBool(v: Json): Result<bool> {
    if v.Bool? then Ok(v.boolean) else Err(TypeMismatch)
  }

  function GetNumber(v: Json): Result<Double> {
    if v.Number? then Ok(v.number) else Err(TypeMismatch)
  }

  function GetString(v: Json): Result<Bytes> {
    if v.String? then Ok(v.text) else Err(TypeMismatch)
  }

  /** `get<nullptr_t>`: the null marker, modelled as the unit value. */
  function GetNull(v: Json): Result<()> {
    if v.Null? then Ok(()) else Err(TypeMismatch)
  }

  /** `getObject()`, which the serializer and the tests use. */
  function GetObject(v: Json): Result<seq<(Bytes, Json)>> {
    if v.Object? then Ok(v.entries) else Err(TypeMismatch)
  }

  /** `getArray()`, which the serializer uses. */
  function GetArray(v: Json): Result<seq<Json>> {
    if v.Array? then Ok(v.elements) else Err(TypeMismatch)
  }

  /** Each getter succeeds exactly on the variant its type names, and then
      fails on every other. */
  lemma GetterSucceedsIffVariantMatches(v: Json)
    ensures GetBool(v).Ok? <==> IsBool(v)
    ensures GetNumber(v).Ok? <==> IsNumber(v)
    ensures GetString(v).Ok? <==> IsString(v)
    ensures GetNull(v).Ok? <==> IsNull(v)
    ensures GetObject(v).Ok? <==> IsObject(v)
    ensures GetArray(v).Ok? <==> IsArray(v)
    ensures GetBool(v).Err? ==> GetBool(v).error == TypeMismatch
    ensures GetNumber(v).Err? ==> GetNumber(v).error == TypeMismatch
    ensures GetString(v).Err? ==> GetString(v).error == TypeMismatch
    ensures GetNull(v).Err? ==> GetNull(v).error == TypeMismatch
    ensures GetObject(v).Err? ==> GetObject(v).error == TypeMismatch
    ensures GetArray(v).Err? ==> GetArray(v).error == TypeMismatch
  {
  }

  // ---------------------------------------------------------------------
  // Constructors (cppjson.cpp:9-37, 97-98)
  // ---------------------------------------------------------------------

  /** `JSON()`: an empty object. */
  function NewObject(): (v: Json)
    ensures IsObject(v) && Size(v) == 0 && WellFormed(v)
    ensures GetObject(v) == Ok([])
  {
    Object([])
  }

  /** `JSON(bool)`. */
  function FromBool(b: bool): (v: Json)
    ensures IsBool(v) && GetBool(v) == Ok(b)
  {
    Bool(b)
  }

  /** `JSON(double)`. */
  function FromNumber(d: Double): (v: Json)
    ensures IsNumber(v) && GetNumber(v) == Ok(d)
  {
    Number(d)
  }

  /** `JSON(std::string)`: its C++ body is empty (the tag is left unset);
      modelled as its doc comment states, a value holding the string. */
  function FromString(s: Bytes): (v: Json)
    ensures IsString(v) && GetString(v) == Ok(s)
  {
    String(s)
  }

  /** `JSON(nullptr)`. */
  function FromNull(): (v: Json)
    ensures IsNull(v) && GetNull(v) == Ok(())
  {
    Null
  }

  /** `JSON::array(...)`: an array of the given elements in order; the tests'
      `JSON::array()` is the empty one. The C++ body is empty. */
  function NewArray(elements: seq<Json>): (v: Json)
    ensures IsArray(v) && Size(v) == |elements| && GetArray(v) == Ok(elements)
  {
    Array(elements)
  }
}
