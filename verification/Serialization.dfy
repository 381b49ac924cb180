// lsp/serialization.h: type-directed conversion to and from JSON, over a recursive
// universe of types. The structures are those the generator writes
// (lspgen/lspgen.cpp, generateStructureProperties).
module Serialization {
  import opened Wrappers
  import opened Text
  import opened Json
  import opened Doubles

  // ---------------------------------------------------------------- types and values

  datatype Type =
    | NullType
    | BoolType
    | IntType
    | UIntType
    | DoubleType
    | StringType
    | VectorType(element: Type)
    | TupleType(elements: seq<Type>)
    | MapType(element: Type)
    | EnumType(base: Type, values: seq<Data>)
    | NullableType(payload: Type)
    | VariantType(alternatives: seq<Type>)
    | StructType(name: string)

  datatype Field = Field(typ: Type, isOptional: bool)

  // required is the table the acceptance test looks at; it may leave out some
  // of the properties that are not optional.
  datatype Struct = Struct(fields: map<string, Field>, required: set<string>)

  type Structs = map<string, Struct>

  // An enumeration holds an index into its values, or, at |values|, a custom
  // value. An absent optional property is an absent key.
  datatype Data =
    | NullData
    | BoolData(b: bool)
    | IntData(i: int)
    | DoubleData(d: real)
    | StringData(s: string)
    | VectorData(items: seq<Data>)
    | TupleData(items: seq<Data>)
    | MapData(entries: map<string, Data>)
    | EnumData(index: nat, custom: Data)
    | NullableNull
    | NullableSet(payload: Data)
    | VariantData(index: nat, payload: Data)
    | StructData(entries: map<string, Data>)

  const UINT32_MAX: int := 0xFFFF_FFFF

  predicate IsEnumBase(t: Type) { t.IntType? || t.UIntType? || t.StringType? }

  predicate WellFormed(env: Structs) {
    forall n | n in env :: forall k | k in env[n].required :: k in env[n].fields && !env[n].fields[k].isOptional
  }

  ghost predicate HasType(env: Structs, t: Type, v: Data)
    decreases v
  {
    match t
    case NullType => v.NullData?
    case BoolType => v.BoolData?
    case IntType => v.IntData? && IsInt32(v.i)
    case UIntType => v.IntData? && 0 <= v.i <= UINT32_MAX
    case DoubleType => v.DoubleData?
    case StringType => v.StringData?
    case VectorType(element) => v.VectorData? && forall i | 0 <= i < |v.items| :: HasType(env, element, v.items[i])
    case TupleType(elements) =>
      v.TupleData? && |v.items| == |elements| > 0
      && forall i | 0 <= i < |v.items| :: HasType(env, elements[i], v.items[i])
    case MapType(element) => v.MapData? && forall k | k in v.entries :: HasType(env, element, v.entries[k])
    case EnumType(base, values) =>
      v.EnumData? && IsEnumBase(base) && v.index <= |values| && IsEnumValue(base, EnumValue(values, v))
    case NullableType(payload) => v.NullableNull? || (v.NullableSet? && HasType(env, payload, v.payload))
    case VariantType(alternatives) =>
      v.VariantData? && v.index < |alternatives| && HasType(env, alternatives[v.index], v.payload)
    case StructType(name) =>
      && v.StructData? && name in env && v.entries.Keys <= env[name].fields.Keys
      && (forall k | k in env[name].fields && !env[name].fields[k].isOptional :: k in v.entries)
      && (forall k | k in v.entries :: HasType(env, env[name].fields[k].typ, v.entries[k]))
  }

  predicate IsEnumValue(base: Type, v: Data) {
    match base
    case IntType => v.IntData? && IsInt32(v.i)
    case UIntType => v.IntData? && 0 <= v.i <= UINT32_MAX
    case _ => v.StringData?
  }

  // Enumeration::value().
  function EnumValue(values: seq<Data>, v: Data): Data
    requires v.EnumData? && v.index <= |values|
  {
    if v.index == |values| then v.custom else values[v.index]
  }

  // ---------------------------------------------------------------- toJson

  // toJson(unsigned int): past json::Integer it is a decimal.
  function UIntToJson(i: int): Value { if i <= INT32_MAX then Integer(i) else Decimal(i as real) }

  function ScalarToJson(t: Type, v: Data): Value {
    match v
    case BoolData(b) => Boolean(b)
    case IntData(i) => if t.UIntType? then UIntToJson(i) else Integer(i)
    case DoubleData(d) => Decimal(d)
    case StringData(s) => String(s)
    case _ => Null
  }

  function ElementType(t: Type, i: nat): Type
    requires t.VectorType? || (t.TupleType? && i < |t.elements|)
  {
    if t.VectorType? then t.element else t.elements[i]
  }

  function MemberType(env: Structs, t: Type, k: string): Type
    requires t.MapType? || (t.StructType? && t.name in env && k in env[t.name].fields)
  {
    if t.MapType? then t.element else env[t.name].fields[k].typ
  }

  ghost function ToJson(env: Structs, t: Type, v: Data): Value
    requires HasType(env, t, v)
    decreases v, 1
  {
    match t
    case VectorType(_) => Array(ElementsToJson(env, t, v))
    case TupleType(_) => Array(ElementsToJson(env, t, v))
    case MapType(_) => Object(MembersToJson(env, t, v))
    case StructType(_) => Object(MembersToJson(env, t, v))
    case EnumType(base, values) => ScalarToJson(base, EnumValue(values, v))
    case NullableType(payload) => if v.NullableNull? then Null else ToJson(env, payload, v.payload)
    case VariantType(alternatives) => ToJson(env, alternatives[v.index], v.payload)
    case _ => ScalarToJson(t, v)
  }

  ghost function ElementsToJson(env: Structs, t: Type, v: Data): seq<Value>
    requires (t.VectorType? || t.TupleType?) && HasType(env, t, v)
    decreases v, 0
  {
    seq(|v.items|, i requires 0 <= i < |v.items| => ToJson(env, ElementType(t, i), v.items[i]))
  }

  ghost function MembersToJson(env: Structs, t: Type, v: Data): map<string, Value>
    requires (t.MapType? || t.StructType?) && HasType(env, t, v)
    decreases v, 0
  {
    map k | k in v.entries :: ToJson(env, MemberType(env, t, k), v.entries[k])
  }

  // ---------------------------------------------------------------- the acceptance test

  predicate CanDeserialize(env: Structs, t: Type, j: Value)
    decreases t, 1, 0
  {
    match t
    case NullType => j.Null?
    case BoolType => j.Boolean?
    case IntType => IsNumber(j)
    case UIntType => IsNumber(j)
    case DoubleType => IsNumber(j)
    case StringType => j.String?
    case NullableType(payload) => j.Null? || CanDeserialize(env, payload, j)
    case VectorType(element) => j.Array? && (j.elements == [] || CanDeserialize(env, element, j.elements[0]))
    case TupleType(elements) => j.Array? && |j.elements| == |elements| && CanDeserializeTuple(env, t, j.elements, 0)
    case EnumType(base, _) => if base.StringType? then j.String? else IsNumber(j)
    case VariantType(alternatives) => VariantIndex(env, t, j, 0).Some?
    case MapType(_) => j.Object?
    case StructType(name) => j.Object? && name in env && forall k | k in env[name].required :: k in j.members
  }

  // It answers yes at the first element that is accepted.
  predicate CanDeserializeTuple(env: Structs, t: Type, elements: seq<Value>, index: nat)
    requires t.TupleType? && |elements| == |t.elements|
    decreases t, 0, |elements| - index
  {
    index < |elements| &&
    (CanDeserialize(env, t.elements[index], elements[index]) || CanDeserializeTuple(env, t, elements, index + 1))
  }

  function VariantIndex(env: Structs, t: Type, j: Value, index: nat): Option<nat>
    requires t.VariantType?
    decreases t, 0, |t.alternatives| - index
  {
    if index >= |t.alternatives| then None
    else if CanDeserialize(env, t.alternatives[index], j) then Some(index)
    else VariantIndex(env, t, j, index + 1)
  }

  // ---------------------------------------------------------------- fromJson

  // What a cast makes of a number outside the range of its target, which C++ leaves
  // undefined.
  type Cast = (Type, int) -> int

  function CastTo(cast: Cast, t: Type, low: int, high: int, i: int): Option<Data> {
    Some(IntData(if low <= i <= high then i else cast(t, i)))
  }

  function IndexOf(values: seq<Data>, v: Data): (i: nat)
    ensures i <= |values|
  {
    if values == [] || values[0] == v then 0 else 1 + IndexOf(values[1..], v)
  }

  // Enumeration::operator=(ValueType&&) on a new enumeration, whose custom value
  // is the default of the base type until one is stored.
  function Looked(base: Type, values: seq<Data>, v: Data): Data {
    var i := IndexOf(values, v);
    EnumData(i, if i < |values| then EnumDefault(base) else v)
  }

  function EnumDefault(base: Type): Data { if base.StringType? then StringData("") else IntData(0) }

  function Collected(os: seq<Option<Data>>): Option<seq<Data>> {
    if forall i | 0 <= i < |os| :: os[i].Some? then Some(seq(|os|, i requires 0 <= i < |os| => os[i].value)) else None
  }

  function CollectedMap(os: map<string, Option<Data>>): Option<map<string, Data>> {
    if forall k | k in os :: os[k].Some? then Some(map k | k in os :: os[k].value) else None
  }

  function CollectedFields(os: map<string, Option<Option<Data>>>): Option<map<string, Data>> {
    if forall k | k in os :: os[k].Some? then Some(map k | k in os && os[k].value.Some? :: os[k].value.value) else None
  }

  function ScalarFromJson(cast: Cast, t: Type, j: Value): Option<Data> {
    match t
    case NullType => Some(NullData)
    case BoolType => if j.Boolean? then Some(BoolData(j.b)) else None
    case IntType => if IsNumber(j) then CastTo(cast, t, INT32_MIN, INT32_MAX, Truncated(j)) else None
    case UIntType => if IsNumber(j) then CastTo(cast, t, 0, UINT32_MAX, Truncated(j)) else None
    case DoubleType =>
      (match j
       case Integer(i) => Some(DoubleData(i as real))
       case Decimal(d) => Some(DoubleData(d))
       case _ => None)
    case StringType => if j.String? then Some(StringData(j.s)) else None
    case _ => None
  }

  // What a new target holds afterwards; None exactly where the source throws.
  ghost function FromJson(cast: Cast, env: Structs, t: Type, j: Value): Option<Data>
    decreases j, 1, t
  {
    match t
    case VectorType(element) =>
      if !j.Array? then None
      else
        var items :- Collected(ElementsFromJson(cast, env, seq(|j.elements|, _ => element), j));
        Some(VectorData(items))
    case TupleType(elements) =>
      if !j.Array? || |j.elements| != |elements| then None
      else
        var items :- Collected(ElementsFromJson(cast, env, elements, j));
        Some(TupleData(items))
    case MapType(element) =>
      if !j.Object? then None
      else
        var entries :- CollectedMap(MembersFromJson(cast, env, element, j));
        Some(MapData(entries))
    case EnumType(base, values) =>
      var v :- ScalarFromJson(cast, base, j);
      Some(Looked(base, values, v))
    case NullableType(payload) =>
      if j.Null? then Some(NullableNull)
      else
        var v :- FromJson(cast, env, payload, j);
        Some(NullableSet(v))
    case VariantType(alternatives) =>
      var i :- VariantIndex(env, t, j, 0);
      if i < |alternatives| then
        var v :- FromJson(cast, env, alternatives[i], j);
        Some(VariantData(i, v))
      else None
    case StructType(name) =>
      if !j.Object? || name !in env then None
      else
        var entries :- CollectedFields(FieldsFromJson(cast, env, env[name].fields, j));
        Some(StructData(entries))
    case _ => ScalarFromJson(cast, t, j)
  }

  ghost function ElementsFromJson(cast: Cast, env: Structs, ts: seq<Type>, j: Value): seq<Option<Data>>
    requires j.Array? && |j.elements| == |ts|
    decreases j, 0
  {
    seq(|ts|, i requires 0 <= i < |ts| => FromJson(cast, env, ts[i], j.elements[i]))
  }

  ghost function MembersFromJson(cast: Cast, env: Structs, element: Type, j: Value): map<string, Option<Data>>
    requires j.Object?
    decreases j, 0
  {
    map k | k in j.members :: FromJson(cast, env, element, j.members[k])
  }

  ghost function FieldsFromJson(cast: Cast, env: Structs, fields: map<string, Field>, j: Value)
    : map<string, Option<Option<Data>>>
    requires j.Object?
    decreases j, 0, 1
  {
    map k | k in fields :: FieldFromJson(cast, env, fields[k], k, j)
  }

  // A property: Some(None) is an absent one. A null for an optional property
  // counts as absent unless its type takes null.
  ghost function FieldFromJson(cast: Cast, env: Structs, f: Field, key: string, j: Value): Option<Option<Data>>
    requires j.Object?
    decreases j, 0, 0
  {
    if key !in j.members then if f.isOptional then Some(None) else None
    else if f.isOptional && j.members[key].Null? && !CanDeserialize(env, f.typ, j.members[key]) then Some(None)
    else
      var v :- FromJson(cast, env, f.typ, j.members[key]);
      Some(Some(v))
  }

  // ---------------------------------------------------------------- when nothing is lost

  // The same value with every enumeration as fromJson would store it.
  ghost function Canonical(env: Structs, t: Type, v: Data): Data
    requires HasType(env, t, v)
    decreases v, 1
  {
    match t
    case VectorType(_) => VectorData(CanonicalItems(env, t, v))
    case TupleType(_) => TupleData(CanonicalItems(env, t, v))
    case MapType(_) => MapData(CanonicalEntries(env, t, v))
    case StructType(_) => StructData(CanonicalEntries(env, t, v))
    case EnumType(base, values) => Looked(base, values, EnumValue(values, v))
    case NullableType(payload) => if v.NullableNull? then v else NullableSet(Canonical(env, payload, v.payload))
    case VariantType(alternatives) => VariantData(v.index, Canonical(env, alternatives[v.index], v.payload))
    case _ => v
  }

  ghost function CanonicalItems(env: Structs, t: Type, v: Data): seq<Data>
    requires (t.VectorType? || t.TupleType?) && HasType(env, t, v)
    decreases v, 0
  {
    seq(|v.items|, i requires 0 <= i < |v.items| => Canonical(env, ElementType(t, i), v.items[i]))
  }

  ghost function CanonicalEntries(env: Structs, t: Type, v: Data): map<string, Data>
    requires (t.MapType? || t.StructType?) && HasType(env, t, v)
    decreases v, 0
  {
    map k | k in v.entries :: Canonical(env, MemberType(env, t, k), v.entries[k])
  }

  // No earlier alternative of a variant accepts what the value prints, and no
  // nullable payload prints as null.
  ghost predicate Unambiguous(env: Structs, t: Type, v: Data)
    requires HasType(env, t, v)
    decreases v, 1
  {
    match t
    case VectorType(_) => UnambiguousItems(env, t, v)
    case TupleType(_) => UnambiguousItems(env, t, v)
    case MapType(_) => UnambiguousEntries(env, t, v)
    case StructType(_) => UnambiguousEntries(env, t, v)
    case NullableType(payload) =>
      v.NullableSet? ==> !ToJson(env, payload, v.payload).Null? && Unambiguous(env, payload, v.payload)
    case VariantType(alternatives) =>
      var printed := ToJson(env, alternatives[v.index], v.payload);
      && (forall k | 0 <= k < v.index :: !CanDeserialize(env, alternatives[k], printed))
      && Unambiguous(env, alternatives[v.index], v.payload)
    case _ => true
  }

  ghost predicate UnambiguousItems(env: Structs, t: Type, v: Data)
    requires (t.VectorType? || t.TupleType?) && HasType(env, t, v)
    decreases v, 0
  {
    forall i | 0 <= i < |v.items| :: Unambiguous(env, ElementType(t, i), v.items[i])
  }

  ghost predicate UnambiguousEntries(env: Structs, t: Type, v: Data)
    requires (t.MapType? || t.StructType?) && HasType(env, t, v)
    decreases v, 0
  {
    forall k | k in v.entries :: Unambiguous(env, MemberType(env, t, k), v.entries[k])
  }

  // ---------------------------------------------------------------- the acceptance test, as a property

  // The index chosen is the least whose alternative accepts.
  lemma {:induction false} LeastAccepted(env: Structs, t: Type, j: Value, start: nat, i: nat)
    requires t.VariantType?
    ensures VariantIndex(env, t, j, start) == Some(i) <==>
      && start <= i < |t.alternatives| && CanDeserialize(env, t.alternatives[i], j)
      && forall k | start <= k < i :: !CanDeserialize(env, t.alternatives[k], j)
    decreases |t.alternatives| - start
  {
    if start < |t.alternatives| && !CanDeserialize(env, t.alternatives[start], j) {
      LeastAccepted(env, t, j, start + 1, i);
    }
  }

  lemma {:induction false} NoneAccepted(env: Structs, t: Type, j: Value, start: nat)
    requires t.VariantType?
    ensures VariantIndex(env, t, j, start) == None <==>
      forall k | start <= k < |t.alternatives| :: !CanDeserialize(env, t.alternatives[k], j)
    decreases |t.alternatives| - start
  {
    if start < |t.alternatives| { NoneAccepted(env, t, j, start + 1); }
  }

  // A tuple is accepted as soon as one of its elements is.
  lemma {:induction false} SomeElementAccepted(env: Structs, t: Type, elements: seq<Value>, index: nat)
    requires t.TupleType? && |elements| == |t.elements|
    ensures CanDeserializeTuple(env, t, elements, index) <==>
      exists i | index <= i < |elements| :: CanDeserialize(env, t.elements[i], elements[i])
    decreases |elements| - index
  {
    if index < |elements| { SomeElementAccepted(env, t, elements, index + 1); }
  }

  // What a type prints, it accepts.
  lemma {:induction false} OwnOutputAccepted(env: Structs, t: Type, v: Data)
    requires WellFormed(env) && HasType(env, t, v)
    ensures CanDeserialize(env, t, ToJson(env, t, v))
    decreases v
  {
    match t {
      case VectorType(element) =>
        if v.items != [] { OwnOutputAccepted(env, element, v.items[0]); }
      case TupleType(elements) =>
        OwnOutputAccepted(env, elements[0], v.items[0]);
      case NullableType(payload) =>
        if v.NullableSet? { OwnOutputAccepted(env, payload, v.payload); }
      case VariantType(alternatives) =>
        OwnOutputAccepted(env, alternatives[v.index], v.payload);
        NoneAccepted(env, t, ToJson(env, t, v), 0);
      case _ =>
    }
  }

  // ---------------------------------------------------------------- round trip

  lemma ScalarRoundTrip(cast: Cast, t: Type, v: Data)
    requires
      || (IsEnumBase(t) && IsEnumValue(t, v))
      || (t.BoolType? && v.BoolData?)
      || (t.DoubleType? && v.DoubleData?)
      || (t.NullType? && v.NullData?)
    ensures ScalarFromJson(cast, t, ScalarToJson(t, v)) == Some(v)
    ensures ScalarToJson(t, v).Null? <==> t.NullType?
  {
  }

  lemma CollectedIs(os: seq<Option<Data>>, ds: seq<Data>)
    requires |os| == |ds|
    ensures Collected(os) == Some(ds) <==> forall i | 0 <= i < |os| :: os[i] == Some(ds[i])
  {
    if Collected(os).Some? {
      var c := Collected(os).value;
      assert forall i | 0 <= i < |os| :: c[i] == os[i].value;
      assert c == ds <==> forall i | 0 <= i < |os| :: c[i] == ds[i];
    }
  }

  lemma CollectedMapIs(os: map<string, Option<Data>>, ds: map<string, Data>)
    requires os.Keys == ds.Keys
    ensures CollectedMap(os) == Some(ds) <==> forall k | k in os :: os[k] == Some(ds[k])
  {
    if CollectedMap(os).Some? {
      var c := CollectedMap(os).value;
      assert c.Keys == ds.Keys;
      assert forall k | k in os :: c[k] == os[k].value;
      assert c == ds <==> forall k | k in os :: c[k] == ds[k];
    }
  }

  function Present(ds: map<string, Data>, k: string): Option<Data> { if k in ds then Some(ds[k]) else None }

  lemma CollectedFieldsIs(os: map<string, Option<Option<Data>>>, ds: map<string, Data>)
    requires ds.Keys <= os.Keys
    ensures CollectedFields(os) == Some(ds) <==> forall k | k in os :: os[k] == Some(Present(ds, k))
  {
    if CollectedFields(os).Some? {
      var c := CollectedFields(os).value;
      assert forall k | k in os :: os[k].value == Present(c, k);
      assert c == ds <==> forall k | k in os :: Present(c, k) == Present(ds, k) by {
        if forall k | k in os :: Present(c, k) == Present(ds, k) {
          assert forall k :: k in c <==> k in ds;
        }
      }
    }
  }

  // The condition is exact.
  ghost predicate RoundTrips(cast: Cast, env: Structs, t: Type, v: Data)
    requires HasType(env, t, v)
  {
    FromJson(cast, env, t, ToJson(env, t, v)) == Some(Canonical(env, t, v)) <==> Unambiguous(env, t, v)
  }

  lemma ItemsUnfolded(env: Structs, t: Type, v: Data)
    requires (t.VectorType? || t.TupleType?) && HasType(env, t, v)
    ensures ToJson(env, t, v) == Array(ElementsToJson(env, t, v)) && |ElementsToJson(env, t, v)| == |v.items|
    ensures Unambiguous(env, t, v) <==> UnambiguousItems(env, t, v)
  {
    hide Canonical, ElementsToJson, UnambiguousItems, CanDeserialize;
    ElementsCount(env, t, v);
  }

  lemma ElementsCount(env: Structs, t: Type, v: Data)
    requires (t.VectorType? || t.TupleType?) && HasType(env, t, v)
    ensures |ElementsToJson(env, t, v)| == |v.items|
  {
    hide ToJson;
  }

  lemma EntriesUnfolded(env: Structs, t: Type, v: Data)
    requires (t.MapType? || t.StructType?) && HasType(env, t, v)
    ensures ToJson(env, t, v) == Object(MembersToJson(env, t, v)) && MembersToJson(env, t, v).Keys == v.entries.Keys
    ensures Unambiguous(env, t, v) <==> UnambiguousEntries(env, t, v)
  {
    hide Canonical, MembersToJson, UnambiguousEntries, CanDeserialize;
    MembersKeys(env, t, v);
  }

  lemma MembersKeys(env: Structs, t: Type, v: Data)
    requires (t.MapType? || t.StructType?) && HasType(env, t, v)
    ensures MembersToJson(env, t, v).Keys == v.entries.Keys
  {
    hide ToJson;
  }

  lemma MemberAt(env: Structs, t: Type, v: Data, k: string)
    requires (t.MapType? || t.StructType?) && HasType(env, t, v) && k in v.entries
    ensures k in MembersToJson(env, t, v)
    ensures MembersToJson(env, t, v)[k] == ToJson(env, MemberType(env, t, k), v.entries[k])
  {
    hide ToJson;
  }

  lemma ItemsOfCanonical(env: Structs, t: Type, v: Data)
    requires (t.VectorType? || t.TupleType?) && HasType(env, t, v)
    ensures |CanonicalItems(env, t, v)| == |v.items|
    ensures Canonical(env, t, v) ==
      if t.VectorType? then VectorData(CanonicalItems(env, t, v)) else TupleData(CanonicalItems(env, t, v))
  {
  }

  lemma EntriesOfCanonical(env: Structs, t: Type, v: Data)
    requires (t.MapType? || t.StructType?) && HasType(env, t, v)
    ensures CanonicalEntries(env, t, v).Keys == v.entries.Keys
    ensures Canonical(env, t, v) ==
      if t.MapType? then MapData(CanonicalEntries(env, t, v)) else StructData(CanonicalEntries(env, t, v))
  {
  }

  // A sequence comes back exactly when each of its elements does.
  lemma ItemsRoundTrip(cast: Cast, env: Structs, t: Type, v: Data, ts: seq<Type>)
    requires (t.VectorType? || t.TupleType?) && HasType(env, t, v) && |ts| == |v.items|
    requires forall i | 0 <= i < |ts| :: ts[i] == ElementType(t, i) && RoundTrips(cast, env, ts[i], v.items[i])
    ensures var j := Array(ElementsToJson(env, t, v));
      Collected(ElementsFromJson(cast, env, ts, j)) == Some(CanonicalItems(env, t, v)) <==> UnambiguousItems(env, t, v)
  {
    hide ToJson, Canonical, Unambiguous, FromJson;
    var j, ds := Array(ElementsToJson(env, t, v)), CanonicalItems(env, t, v);
    var os := ElementsFromJson(cast, env, ts, j);
    CollectedIs(os, ds);
    forall i | 0 <= i < |os| ensures os[i] == Some(ds[i]) <==> Unambiguous(env, ts[i], v.items[i]) {
      assert RoundTrips(cast, env, ts[i], v.items[i]);
    }
  }

  lemma RoundTripVector(cast: Cast, env: Structs, t: Type, v: Data)
    requires t.VectorType? && HasType(env, t, v)
    requires forall i | 0 <= i < |v.items| :: RoundTrips(cast, env, t.element, v.items[i])
    ensures RoundTrips(cast, env, t, v)
  {
    hide ToJson, Canonical, Unambiguous, ElementsToJson, CanonicalItems, UnambiguousItems, ElementsFromJson, Collected;
    ItemsUnfolded(env, t, v);
    ItemsOfCanonical(env, t, v);
    ItemsRoundTrip(cast, env, t, v, seq(|v.items|, _ => t.element));
  }

  lemma RoundTripTuple(cast: Cast, env: Structs, t: Type, v: Data)
    requires t.TupleType? && HasType(env, t, v)
    requires forall i | 0 <= i < |v.items| :: RoundTrips(cast, env, t.elements[i], v.items[i])
    ensures RoundTrips(cast, env, t, v)
  {
    hide ToJson, Canonical, Unambiguous, ElementsToJson, CanonicalItems, UnambiguousItems, ElementsFromJson, Collected;
    ItemsUnfolded(env, t, v);
    ItemsOfCanonical(env, t, v);
    ItemsRoundTrip(cast, env, t, v, t.elements);
  }

  lemma EntriesRoundTrip(cast: Cast, env: Structs, t: Type, v: Data)
    requires t.MapType? && HasType(env, t, v)
    requires forall k | k in v.entries :: RoundTrips(cast, env, t.element, v.entries[k])
    ensures var j := Object(MembersToJson(env, t, v));
      CollectedMap(MembersFromJson(cast, env, t.element, j)) == Some(CanonicalEntries(env, t, v))
      <==> UnambiguousEntries(env, t, v)
  {
    hide ToJson, Canonical, Unambiguous, FromJson;
    var j, ds := Object(MembersToJson(env, t, v)), CanonicalEntries(env, t, v);
    var os := MembersFromJson(cast, env, t.element, j);
    assert os.Keys == j.members.Keys == v.entries.Keys == ds.Keys;
    CollectedMapIs(os, ds);
    forall k | k in os ensures os[k] == Some(ds[k]) <==> Unambiguous(env, t.element, v.entries[k]) {
      assert RoundTrips(cast, env, t.element, v.entries[k]);
    }
  }

  lemma RoundTripMap(cast: Cast, env: Structs, t: Type, v: Data)
    requires t.MapType? && HasType(env, t, v)
    requires forall k | k in v.entries :: RoundTrips(cast, env, t.element, v.entries[k])
    ensures RoundTrips(cast, env, t, v)
  {
    hide ToJson, Canonical, Unambiguous, MembersToJson, CanonicalEntries, UnambiguousEntries, MembersFromJson,
         CollectedMap;
    EntriesUnfolded(env, t, v);
    EntriesOfCanonical(env, t, v);
    EntriesRoundTrip(cast, env, t, v);
  }

  lemma RoundTripNullable(cast: Cast, env: Structs, t: Type, v: Data)
    requires t.NullableType? && HasType(env, t, v)
    requires v.NullableSet? ==> RoundTrips(cast, env, t.payload, v.payload)
    ensures RoundTrips(cast, env, t, v)
  {
  }

  lemma RoundTripVariant(cast: Cast, env: Structs, t: Type, v: Data)
    requires WellFormed(env) && t.VariantType? && HasType(env, t, v)
    requires RoundTrips(cast, env, t.alternatives[v.index], v.payload)
    ensures RoundTrips(cast, env, t, v)
  {
    var j := ToJson(env, t, v);
    OwnOutputAccepted(env, t.alternatives[v.index], v.payload);
    LeastAccepted(env, t, j, 0, v.index);
    if VariantIndex(env, t, j, 0).Some? { LeastAccepted(env, t, j, 0, VariantIndex(env, t, j, 0).value); }
  }

  lemma RoundTripField(cast: Cast, env: Structs, name: string, v: Data, k: string)
    requires WellFormed(env) && HasType(env, StructType(name), v) && k in env[name].fields
    requires k in v.entries ==> RoundTrips(cast, env, env[name].fields[k].typ, v.entries[k])
    ensures var f, j := env[name].fields[k], Object(MembersToJson(env, StructType(name), v));
      FieldFromJson(cast, env, f, k, j) == Some(Present(CanonicalEntries(env, StructType(name), v), k))
      <==> (k in v.entries ==> Unambiguous(env, f.typ, v.entries[k]))
  {
    hide ToJson, Canonical, Unambiguous, FromJson, CanDeserialize;
    if k in v.entries { OwnOutputAccepted(env, env[name].fields[k].typ, v.entries[k]); }
  }

  lemma FieldsRoundTrip(cast: Cast, env: Structs, t: Type, v: Data)
    requires WellFormed(env) && t.StructType? && HasType(env, t, v)
    requires forall k | k in v.entries :: RoundTrips(cast, env, env[t.name].fields[k].typ, v.entries[k])
    ensures var j := Object(MembersToJson(env, t, v));
      CollectedFields(FieldsFromJson(cast, env, env[t.name].fields, j)) == Some(CanonicalEntries(env, t, v))
      <==> UnambiguousEntries(env, t, v)
  {
    hide ToJson, Canonical, Unambiguous, FromJson, FieldFromJson, WellFormed;
    var j, fields, ds := Object(MembersToJson(env, t, v)), env[t.name].fields, CanonicalEntries(env, t, v);
    var os := FieldsFromJson(cast, env, fields, j);
    forall k | k in fields
      ensures os[k] == Some(Present(ds, k)) <==> (k in v.entries ==> Unambiguous(env, fields[k].typ, v.entries[k]))
    {
      RoundTripField(cast, env, t.name, v, k);
    }
    CollectedFieldsIs(os, ds);
  }

  lemma RoundTripStruct(cast: Cast, env: Structs, t: Type, v: Data)
    requires WellFormed(env) && t.StructType? && HasType(env, t, v)
    requires forall k | k in v.entries :: RoundTrips(cast, env, env[t.name].fields[k].typ, v.entries[k])
    ensures RoundTrips(cast, env, t, v)
  {
    hide ToJson, Canonical, Unambiguous, MembersToJson, CanonicalEntries, UnambiguousEntries, FieldsFromJson,
         CollectedFields, WellFormed;
    EntriesUnfolded(env, t, v);
    EntriesOfCanonical(env, t, v);
    FieldsRoundTrip(cast, env, t, v);
  }

  // fromJson undoes toJson exactly for the unambiguous values.
  lemma {:induction false} RoundTrip(cast: Cast, env: Structs, t: Type, v: Data)
    requires WellFormed(env) && HasType(env, t, v)
    ensures FromJson(cast, env, t, ToJson(env, t, v)) == Some(Canonical(env, t, v)) <==> Unambiguous(env, t, v)
    decreases v
  {
    hide ToJson, Canonical, Unambiguous, FromJson, WellFormed;
    assert RoundTrips(cast, env, t, v) by {
      match t {
        case VectorType(element) =>
          forall i | 0 <= i < |v.items| { RoundTrip(cast, env, element, v.items[i]); }
          RoundTripVector(cast, env, t, v);
        case TupleType(elements) =>
          forall i | 0 <= i < |v.items| { RoundTrip(cast, env, elements[i], v.items[i]); }
          RoundTripTuple(cast, env, t, v);
        case MapType(element) =>
          forall k | k in v.entries { RoundTrip(cast, env, element, v.entries[k]); }
          RoundTripMap(cast, env, t, v);
        case NullableType(payload) =>
          if v.NullableSet? { RoundTrip(cast, env, payload, v.payload); }
          RoundTripNullable(cast, env, t, v);
        case VariantType(alternatives) =>
          RoundTrip(cast, env, alternatives[v.index], v.payload);
          RoundTripVariant(cast, env, t, v);
        case StructType(name) =>
          forall k | k in v.entries { RoundTrip(cast, env, env[name].fields[k].typ, v.entries[k]); }
          RoundTripStruct(cast, env, t, v);
        case _ =>
          RoundTripScalar(cast, env, t, v);
      }
    }
  }

  lemma RoundTripScalar(cast: Cast, env: Structs, t: Type, v: Data)
    requires HasType(env, t, v)
    requires !t.VectorType? && !t.TupleType? && !t.MapType? && !t.NullableType? && !t.VariantType? && !t.StructType?
    ensures RoundTrips(cast, env, t, v)
  {
    if t.EnumType? {
      ScalarRoundTrip(cast, t.base, EnumValue(t.values, v));
    } else {
      ScalarRoundTrip(cast, t, v);
    }
  }

  // ---------------------------------------------------------------- what the round trip keeps

  // An enumeration keeps its value(); its index is the first with that value.
  lemma {:induction false} FirstIndex(values: seq<Data>, x: Data)
    ensures var i := IndexOf(values, x);
      (forall k | 0 <= k < i :: values[k] != x) && (i < |values| ==> values[i] == x)
  {
    if values != [] && values[0] != x {
      FirstIndex(values[1..], x);
      var i := IndexOf(values[1..], x);
      forall k | 0 <= k < 1 + i ensures values[k] != x {
        if k > 0 { assert values[k] == values[1..][k - 1]; }
      }
    }
  }

  lemma EnumKeepsValue(base: Type, values: seq<Data>, x: Data)
    ensures EnumValue(values, Looked(base, values, x)) == x
  {
    FirstIndex(values, x);
  }

  ghost predicate PrintsSame(env: Structs, t: Type, v: Data, w: Data)
    requires HasType(env, t, v)
  {
    HasType(env, t, w) && ToJson(env, t, w) == ToJson(env, t, v)
  }

  lemma ItemsPrintSame(env: Structs, t: Type, v: Data, w: Data)
    requires (t.VectorType? || t.TupleType?) && HasType(env, t, v) && HasType(env, t, w) && |w.items| == |v.items|
    requires forall i | 0 <= i < |v.items| :: PrintsSame(env, ElementType(t, i), v.items[i], w.items[i])
    ensures ElementsToJson(env, t, w) == ElementsToJson(env, t, v)
  {
    hide ToJson;
    forall i | 0 <= i < |v.items| ensures ElementsToJson(env, t, w)[i] == ElementsToJson(env, t, v)[i] {
      assert PrintsSame(env, ElementType(t, i), v.items[i], w.items[i]);
    }
  }

  lemma EntriesPrintSame(env: Structs, t: Type, v: Data, w: Data)
    requires (t.MapType? || t.StructType?) && HasType(env, t, v) && HasType(env, t, w)
      && w.entries.Keys == v.entries.Keys
    requires forall k | k in v.entries :: PrintsSame(env, MemberType(env, t, k), v.entries[k], w.entries[k])
    ensures MembersToJson(env, t, w) == MembersToJson(env, t, v)
  {
    hide ToJson, MembersToJson;
    MembersKeys(env, t, v);
    MembersKeys(env, t, w);
    forall k | k in v.entries { MemberPrintsSame(env, t, v, w, k); }
  }

  lemma MemberPrintsSame(env: Structs, t: Type, v: Data, w: Data, k: string)
    requires (t.MapType? || t.StructType?) && HasType(env, t, v) && HasType(env, t, w) && k in v.entries
      && k in w.entries
    requires PrintsSame(env, MemberType(env, t, k), v.entries[k], w.entries[k])
    ensures k in MembersToJson(env, t, w) && k in MembersToJson(env, t, v)
    ensures MembersToJson(env, t, w)[k] == MembersToJson(env, t, v)[k]
  {
    hide ToJson, MembersToJson;
    MemberAt(env, t, v, k);
    MemberAt(env, t, w, k);
  }

  // The parts have their types, so the whole has.
  lemma CanonicalTyped(env: Structs, t: Type, v: Data)
    requires HasType(env, t, v)
    requires t.VectorType? || t.TupleType? ==>
      forall i | 0 <= i < |v.items| :: HasType(env, ElementType(t, i), CanonicalItems(env, t, v)[i])
    requires t.MapType? || t.StructType? ==>
      forall k | k in v.entries :: HasType(env, MemberType(env, t, k), CanonicalEntries(env, t, v)[k])
    ensures t.VectorType? ==> HasType(env, t, VectorData(CanonicalItems(env, t, v)))
    ensures t.TupleType? ==> HasType(env, t, TupleData(CanonicalItems(env, t, v)))
    ensures t.MapType? ==> HasType(env, t, MapData(CanonicalEntries(env, t, v)))
    ensures t.StructType? ==> HasType(env, t, StructData(CanonicalEntries(env, t, v)))
  {
    hide ToJson, Canonical;
  }

  lemma SequencePrintsSame(env: Structs, t: Type, v: Data)
    requires (t.VectorType? || t.TupleType?) && HasType(env, t, v)
    requires forall i | 0 <= i < |v.items| ::
      PrintsSame(env, ElementType(t, i), v.items[i], Canonical(env, ElementType(t, i), v.items[i]))
    ensures PrintsSame(env, t, v, Canonical(env, t, v))
  {
    hide ToJson, Canonical, HasType;
    ItemsOfCanonical(env, t, v);
    CanonicalTyped(env, t, v);
    var w := Canonical(env, t, v);
    ItemsUnfolded(env, t, v);
    ItemsUnfolded(env, t, w);
    ItemsPrintSame(env, t, v, w);
  }

  lemma ObjectPrintsSame(env: Structs, t: Type, v: Data)
    requires (t.MapType? || t.StructType?) && HasType(env, t, v)
    requires forall k | k in v.entries ::
      PrintsSame(env, MemberType(env, t, k), v.entries[k], Canonical(env, MemberType(env, t, k), v.entries[k]))
    ensures PrintsSame(env, t, v, Canonical(env, t, v))
  {
    hide ToJson, Canonical, HasType;
    EntriesOfCanonical(env, t, v);
    CanonicalTyped(env, t, v);
    var w := Canonical(env, t, v);
    EntriesUnfolded(env, t, v);
    EntriesUnfolded(env, t, w);
    EntriesPrintSame(env, t, v, w);
  }

  // Only the way enumerations are stored changes: the canonical value prints the same.
  lemma {:induction false} CanonicalPrints(env: Structs, t: Type, v: Data)
    requires HasType(env, t, v)
    ensures HasType(env, t, Canonical(env, t, v)) && ToJson(env, t, Canonical(env, t, v)) == ToJson(env, t, v)
    decreases v
  {
    hide ToJson, Canonical;
    assert PrintsSame(env, t, v, Canonical(env, t, v)) by {
      if t.VectorType? || t.TupleType? {
        forall i | 0 <= i < |v.items| { CanonicalPrints(env, ElementType(t, i), v.items[i]); }
        SequencePrintsSame(env, t, v);
      } else if t.MapType? || t.StructType? {
        forall k | k in v.entries { CanonicalPrints(env, MemberType(env, t, k), v.entries[k]); }
        ObjectPrintsSame(env, t, v);
      } else {
        if t.NullableType? && v.NullableSet? {
          CanonicalPrints(env, t.payload, v.payload);
        } else if t.VariantType? {
          CanonicalPrints(env, t.alternatives[v.index], v.payload);
        }
        OtherPrintsSame(env, t, v);
      }
    }
  }

  lemma OtherPrintsSame(env: Structs, t: Type, v: Data)
    requires HasType(env, t, v) && !t.VectorType? && !t.TupleType? && !t.MapType? && !t.StructType?
    requires t.NullableType? && v.NullableSet? ==>
      PrintsSame(env, t.payload, v.payload, Canonical(env, t.payload, v.payload))
    requires t.VariantType? ==>
      PrintsSame(env, t.alternatives[v.index], v.payload, Canonical(env, t.alternatives[v.index], v.payload))
    ensures PrintsSame(env, t, v, Canonical(env, t, v))
  {
    if t.EnumType? { EnumKeepsValue(t.base, t.values, EnumValue(t.values, v)); }
  }

  // An optional property reads as absent exactly when its key is missing, or is
  // null and the type does not take null.
  lemma AbsentWhen(cast: Cast, env: Structs, f: Field, key: string, j: Value)
    requires j.Object? && f.isOptional
    ensures FieldFromJson(cast, env, f, key, j) == Some(None)
      <==> key !in j.members || (j.members[key].Null? && !CanDeserialize(env, f.typ, Null))
  {
  }

  // For an optional nullable property absent, null and set stay apart, both on
  // the wire and after reading.
  lemma OptionalNullable(cast: Cast, env: Structs, payload: Type, key: string, j: Value, x: Data)
    requires j.Object? && HasType(env, payload, x) && !ToJson(env, payload, x).Null?
    ensures ToJson(env, NullableType(payload), NullableNull) != ToJson(env, NullableType(payload), NullableSet(x))
    ensures var r := FieldFromJson(cast, env, Field(NullableType(payload), true), key, j);
      && (r == Some(None) <==> key !in j.members)
      && (r == Some(Some(NullableNull)) <==> key in j.members && j.members[key].Null?)
  {
    AbsentWhen(cast, env, Field(NullableType(payload), true), key, j);
  }

  // Because a tuple is accepted at its first acceptable element, a pair of
  // numbers goes to the earlier alternative, a number and a string, and fails.
  lemma TupleShadowed(cast: Cast, env: Structs)
    ensures var t := VariantType([TupleType([IntType, StringType]), TupleType([IntType, IntType])]);
      var v := VariantData(1, TupleData([IntData(5), IntData(6)]));
      HasType(env, t, v) && FromJson(cast, env, t, ToJson(env, t, v)) == None
  {
    hide FromJson, CanDeserialize;
    NumbersPrint(env);
    FirstRefuses(cast, env, TupleType([IntType, IntType]));
  }

  lemma FirstRefuses(cast: Cast, env: Structs, other: Type)
    ensures var t := VariantType([TupleType([IntType, StringType]), other]);
      FromJson(cast, env, t, Array([Integer(5), Integer(6)])) == None
  {
    hide Collected, ElementsFromJson;
    LeastAccepted(env, VariantType([TupleType([IntType, StringType]), other]), Array([Integer(5), Integer(6)]), 0, 0);
    PairRefuses(cast, env);
  }

  lemma NumbersPrint(env: Structs)
    ensures var t, x := TupleType([IntType, IntType]), TupleData([IntData(5), IntData(6)]);
      HasType(env, t, x) && ToJson(env, t, x) == Array([Integer(5), Integer(6)])
  {
    var t, x := TupleType([IntType, IntType]), TupleData([IntData(5), IntData(6)]);
    assert HasType(env, IntType, IntData(5)) && HasType(env, IntType, IntData(6));
    assert ToJson(env, t, x).elements == [Integer(5), Integer(6)];
  }

  lemma PairRefuses(cast: Cast, env: Structs)
    ensures var t, j := TupleType([IntType, StringType]), Array([Integer(5), Integer(6)]);
      CanDeserialize(env, t, j) && FromJson(cast, env, t, j) == None
  {
    var t, j := TupleType([IntType, StringType]), Array([Integer(5), Integer(6)]);
    assert CanDeserialize(env, t.elements[0], j.elements[0]);
    var os := ElementsFromJson(cast, env, t.elements, j);
    assert os[1] == FromJson(cast, env, StringType, Integer(6)) == None;
  }

  // ---------------------------------------------------------------- 64-bit integers

  const UINT64_MAX: int := 0xFFFF_FFFF_FFFF_FFFF

  // The largest doubles below 2^63 and 2^64.
  const LAST_LONG: int := 0x7FFF_FFFF_FFFF_FC00
  const LAST_ULONG: int := 0xFFFF_FFFF_FFFF_F800

  // toJson(long) has no lower bound.
  function LongToJson(nearest: int -> int, i: int): Value {
    if i <= INT32_MAX then Integer(WrapInt32(i)) else Decimal(nearest(i) as real)
  }

  // toJson(unsigned long) and toJson(unsigned long long).
  function ULongToJson(nearest: int -> int, i: nat): Value {
    if i <= INT32_MAX then Integer(i) else Decimal(nearest(i) as real)
  }

  // fromJson(long), fromJson(unsigned long) and fromJson(unsigned long long) cast the
  // number to a type with these bounds.
  function WideFromJson(cast: int -> int, low: int, high: int, j: Value): Option<Data> {
    if !IsNumber(j) then None
    else Some(IntData(if low <= Truncated(j) <= high then Truncated(j) else cast(Truncated(j))))
  }

  function LongFromJson(cast: int -> int, j: Value): Option<Data> { WideFromJson(cast, INT64_MIN, INT64_MAX, j) }

  function ULongFromJson(cast: int -> int, j: Value): Option<Data> { WideFromJson(cast, 0, UINT64_MAX, j) }

  lemma LastDoubles()
    ensures IsDouble(LAST_LONG) && IsDouble(LAST_ULONG) && IsDouble(INT64_MIN) && IsDouble(0)
  {
    assert Fits53(0x7FFF_FFFF_FFFF_FC00) && Fits53(0xFFFF_FFFF_FFFF_F800) && Fits53(0x8000_0000_0000_0000);
  }

  lemma Wrapped(i: int)
    ensures WrapInt32(i) == i <==> IsInt32(i)
  {
  }

  // A long survives exactly when it is not below the 32-bit minimum and either fits
  // 32 bits or is held exactly by a double.  Above the last double of 64 bits the
  // conversion may leave the range of the type, and the cast back is undefined.
  lemma LongRoundTrip(nearest: int -> int, cast: int -> int, i: int)
    requires Rounding(nearest) && IsInt64(i)
    ensures IsInt64(nearest(i)) ==>
      (LongFromJson(cast, LongToJson(nearest, i)) == Some(IntData(i))
       <==> INT32_MIN <= i && (i <= INT32_MAX || IsDouble(i)))
    ensures i <= LAST_LONG ==> IsInt64(nearest(i))
  {
    hide Rounding, IsDouble, WrapInt32;
    LastDoubles();
    RoundingStays(nearest, INT64_MIN, i, LAST_LONG);
    RoundingKeeps(nearest, i);
    Wrapped(i);
  }

  // The same for unsigned long and unsigned long long, without the lower bound.
  lemma ULongRoundTrip(nearest: int -> int, cast: int -> int, i: nat)
    requires Rounding(nearest) && i <= UINT64_MAX
    ensures nearest(i) <= UINT64_MAX ==>
      (ULongFromJson(cast, ULongToJson(nearest, i)) == Some(IntData(i)) <==> i <= INT32_MAX || IsDouble(i))
    ensures i <= LAST_ULONG ==> nearest(i) <= UINT64_MAX
  {
    hide Rounding, IsDouble;
    LastDoubles();
    RoundingStays(nearest, 0, i, LAST_ULONG);
    RoundingKeeps(nearest, i);
  }

  // The largest number below the 32-bit minimum comes back as the 32-bit maximum.
  lemma LongTruncated(nearest: int -> int, cast: int -> int)
    ensures LongFromJson(cast, LongToJson(nearest, INT32_MIN - 1)) == Some(IntData(INT32_MAX))
  {
  }

  // The first integer that no double holds does not come back.
  lemma LongRounded(nearest: int -> int, cast: int -> int)
    requires Rounding(nearest)
    ensures LongFromJson(cast, LongToJson(nearest, SIGNIFICAND + 1)) != Some(IntData(SIGNIFICAND + 1))
    ensures forall i | INT32_MIN <= i <= SIGNIFICAND ::
      LongFromJson(cast, LongToJson(nearest, i)) == Some(IntData(i))
  {
    LongRoundTrip(nearest, cast, SIGNIFICAND + 1);
    forall i | INT32_MIN <= i <= SIGNIFICAND
      ensures LongFromJson(cast, LongToJson(nearest, i)) == Some(IntData(i))
    {
      LongRoundTrip(nearest, cast, i);
    }
  }

  // A nullable that holds a null of its own payload comes back as null itself.
  lemma NullInNullable(cast: Cast, env: Structs)
    ensures var t, v := NullableType(NullableType(IntType)), NullableSet(NullableNull);
      HasType(env, t, v) && FromJson(cast, env, t, ToJson(env, t, v)) == Some(NullableNull)
  {
    var t := NullableType(IntType);
    assert HasType(env, t, NullableNull) && ToJson(env, t, NullableNull) == Null;
  }

  // ---------------------------------------------------------------- the conversions themselves

  method WriteJson(env: Structs, t: Type, v: Data) returns (j: Value)
    requires HasType(env, t, v)
    ensures j == ToJson(env, t, v)
    decreases v, 1
  {
    match t {
      case VectorType(element) =>
        j := WriteElements(env, t, v);
      case TupleType(elements) =>
        j := WriteElements(env, t, v);
      case MapType(element) =>
        j := WriteMembers(env, t, v);
      case StructType(name) =>
        j := WriteMembers(env, t, v);
      case EnumType(base, values) =>
        j := ScalarToJson(base, EnumValue(values, v));
      case NullableType(payload) =>
        if v.NullableNull? { return Null; }
        j := WriteJson(env, payload, v.payload);
      case VariantType(alternatives) =>
        j := WriteJson(env, alternatives[v.index], v.payload);
      case _ =>
        j := ScalarToJson(t, v);
    }
  }

  method WriteElements(env: Structs, t: Type, v: Data) returns (j: Value)
    requires (t.VectorType? || t.TupleType?) && HasType(env, t, v)
    ensures j == ToJson(env, t, v)
    decreases v, 0
  {
    var result := [];
    for i := 0 to |v.items|
      invariant |result| == i && forall k | 0 <= k < i :: result[k] == ElementsToJson(env, t, v)[k]
    {
      var element := WriteJson(env, ElementType(t, i), v.items[i]);
      result := result + [element];
    }
    assert result == ElementsToJson(env, t, v);
    j := Array(result);
  }

  // In whatever order the entries come.
  method WriteMembers(env: Structs, t: Type, v: Data) returns (j: Value)
    requires (t.MapType? || t.StructType?) && HasType(env, t, v)
    ensures j == ToJson(env, t, v)
    decreases v, 0
  {
    var left, result := v.entries.Keys, map[];
    while left != {}
      invariant left <= v.entries.Keys && result.Keys == v.entries.Keys - left
      invariant forall k | k in result :: result[k] == MembersToJson(env, t, v)[k]
    {
      var k :| k in left;
      var member := WriteJson(env, MemberType(env, t, k), v.entries[k]);
      result := result[k := member];
      left := left - {k};
    }
    assert result == MembersToJson(env, t, v);
    j := Object(result);
  }

  method ReadJson(cast: Cast, env: Structs, t: Type, j: Value) returns (r: Option<Data>)
    ensures r == FromJson(cast, env, t, j)
    decreases j, 1, t
  {
    match t {
      case VectorType(element) =>
        if !j.Array? { return None; }
        var items := ReadElements(cast, env, seq(|j.elements|, _ => element), j);
        r := if items.Some? then Some(VectorData(items.value)) else None;
      case TupleType(elements) =>
        if !j.Array? || |j.elements| != |elements| { return None; }
        var items := ReadElements(cast, env, elements, j);
        r := if items.Some? then Some(TupleData(items.value)) else None;
      case MapType(element) =>
        if !j.Object? { return None; }
        var entries := ReadMembers(cast, env, element, j);
        r := if entries.Some? then Some(MapData(entries.value)) else None;
      case EnumType(base, values) =>
        var v := ScalarFromJson(cast, base, j);
        r := if v.Some? then Some(Looked(base, values, v.value)) else None;
      case NullableType(payload) =>
        if j.Null? { return Some(NullableNull); }
        var v := ReadJson(cast, env, payload, j);
        r := if v.Some? then Some(NullableSet(v.value)) else None;
      case VariantType(alternatives) =>
        r := ReadVariant(cast, env, t, j, VariantIndex(env, t, j, 0));
      case StructType(name) =>
        if !j.Object? || name !in env { return None; }
        var entries := ReadFields(cast, env, env[name].fields, j);
        r := if entries.Some? then Some(StructData(entries.value)) else None;
      case _ =>
        r := ScalarFromJson(cast, t, j);
    }
  }

  // variantFromJson: one alternative after the other up to the index.
  method ReadVariant(cast: Cast, env: Structs, t: Type, j: Value, idx: Option<nat>) returns (r: Option<Data>)
    requires t.VariantType? && idx == VariantIndex(env, t, j, 0)
    ensures r == FromJson(cast, env, t, j)
    decreases j, 1, t, 0
  {
    if idx.Some? { LeastAccepted(env, t, j, 0, idx.value); }
    for index := 0 to |t.alternatives|
      invariant idx.Some? ==> index <= idx.value
    {
      if idx == Some(index) {
        var v := ReadJson(cast, env, t.alternatives[index], j);
        return if v.Some? then Some(VariantData(index, v.value)) else None;
      }
    }
    r := None;
  }

  method ReadElements(cast: Cast, env: Structs, ts: seq<Type>, j: Value) returns (r: Option<seq<Data>>)
    requires j.Array? && |j.elements| == |ts|
    ensures r == Collected(ElementsFromJson(cast, env, ts, j))
    decreases j, 0
  {
    ghost var os := ElementsFromJson(cast, env, ts, j);
    var items := [];
    for i := 0 to |ts|
      invariant |items| == i && forall k | 0 <= k < i :: os[k] == Some(items[k])
    {
      var v := ReadJson(cast, env, ts[i], j.elements[i]);
      if v.None? {
        assert os[i] == None;
        return None;
      }
      items := items + [v.value];
    }
    CollectedIs(os, items);
    r := Some(items);
  }

  method ReadMembers(cast: Cast, env: Structs, element: Type, j: Value) returns (r: Option<map<string, Data>>)
    requires j.Object?
    ensures r == CollectedMap(MembersFromJson(cast, env, element, j))
    decreases j, 0
  {
    hide FromJson;
    ghost var os := MembersFromJson(cast, env, element, j);
    var left, entries := j.members.Keys, map[];
    while left != {}
      invariant left <= j.members.Keys && entries.Keys == j.members.Keys - left
      invariant forall k | k in entries :: os[k] == Some(entries[k])
    {
      var k :| k in left;
      var v := ReadJson(cast, env, element, j.members[k]);
      if v.None? {
        assert os[k] == None;
        return None;
      }
      entries := entries[k := v.value];
      left := left - {k};
    }
    CollectedMapIs(os, entries);
    r := Some(entries);
  }

  method ReadFields(cast: Cast, env: Structs, fields: map<string, Field>, j: Value)
    returns (r: Option<map<string, Data>>)
    requires j.Object?
    ensures r == CollectedFields(FieldsFromJson(cast, env, fields, j))
    decreases j, 0
  {
    ghost var os := FieldsFromJson(cast, env, fields, j);
    var left, entries := fields.Keys, map[];
    while left != {}
      invariant left <= fields.Keys && entries.Keys <= fields.Keys - left
      invariant forall k | k in fields.Keys - left :: os[k] == Some(Present(entries, k))
    {
      var k :| k in left;
      var f := fields[k];
      left := left - {k};
      assert os[k] == FieldFromJson(cast, env, f, k, j);
      if k !in j.members {
        if !f.isOptional {
          assert os[k] == None;
          return None;
        }
      } else if f.isOptional && j.members[k].Null? && !CanDeserialize(env, f.typ, j.members[k]) {
      } else {
        var v := ReadJson(cast, env, f.typ, j.members[k]);
        if v.None? {
          assert os[k] == None;
          return None;
        }
        entries := entries[k := v.value];
      }
    }
    CollectedFieldsIs(os, entries);
    r := Some(entries);
  }
}
