// lsp/serialization.h: what each type looks like in JSON, and what each type makes of
// each kind of JSON value, its own or another's.
module JsonTypes {
  import opened Wrappers
  import opened Text
  import opened Json
  import opened Serialization

  // The values of the scalar types.
  lemma ScalarsTyped(env: Structs, v: Data)
    ensures HasType(env, NullType, v) <==> v == NullData
    ensures HasType(env, BoolType, v) <==> v.BoolData?
    ensures HasType(env, IntType, v) <==> v.IntData? && -0x8000_0000 <= v.i < 0x8000_0000
    ensures HasType(env, UIntType, v) <==> v.IntData? && 0 <= v.i < 0x1_0000_0000
    ensures HasType(env, DoubleType, v) <==> v.DoubleData?
    ensures HasType(env, StringType, v) <==> v.StringData?
  {
  }

  lemma BaseTyped(env: Structs, base: Type, v: Data)
    requires IsEnumBase(base)
    ensures HasType(env, base, v) <==> IsEnumValue(base, v)
  {
    match base {
      case IntType =>
      case UIntType =>
      case StringType =>
    }
  }

  // Those of an enumeration: any value of the base type, listed or not.
  lemma EnumsTyped(env: Structs, base: Type, values: seq<Data>, v: Data)
    ensures HasType(env, EnumType(base, values), v) <==>
      && v.EnumData? && (base == IntType || base == UIntType || base == StringType)
      && if v.index < |values| then HasType(env, base, values[v.index])
         else v.index == |values| && HasType(env, base, v.custom)
  {
    if v.EnumData? && IsEnumBase(base) && v.index <= |values| { BaseTyped(env, base, EnumValue(values, v)); }
  }

  // ---------------------------------------------------------------- writing

  // Scalars are the JSON values of the same kind; an unsigned integer past the 32-bit
  // maximum is a decimal.
  lemma ScalarsWritten(env: Structs, t: Type, v: Data)
    requires HasType(env, t, v)
    ensures t.NullType? ==> ToJson(env, t, v) == Null
    ensures t.BoolType? ==> ToJson(env, t, v) == Boolean(v.b)
    ensures t.IntType? ==> ToJson(env, t, v) == Integer(v.i)
    ensures t.UIntType? ==> ToJson(env, t, v) == if v.i < 0x8000_0000 then Integer(v.i) else Decimal(v.i as real)
    ensures t.DoubleType? ==> ToJson(env, t, v) == Decimal(v.d)
    ensures t.StringType? ==> ToJson(env, t, v) == String(v.s)
  {
  }

  // Sequences are arrays of the JSON of their elements, in order.
  lemma SequencesWritten(env: Structs, t: Type, v: Data)
    requires HasType(env, t, v) && (t.VectorType? || t.TupleType?)
    ensures var j := ToJson(env, t, v);
      && j.Array? && |j.elements| == |v.items|
      && forall i | 0 <= i < |v.items| ::
           j.elements[i] == ToJson(env, if t.VectorType? then t.element else t.elements[i], v.items[i])
  {
    hide ToJson;
    ItemsUnfolded(env, t, v);
    forall i | 0 <= i < |v.items|
      ensures ElementsToJson(env, t, v)[i] ==
        ToJson(env, if t.VectorType? then t.element else t.elements[i], v.items[i])
    {
    }
  }

  // Maps and structures are objects of the JSON of their entries; an absent optional
  // property is not written.
  lemma ObjectsWritten(env: Structs, t: Type, v: Data)
    requires HasType(env, t, v) && (t.MapType? || t.StructType?)
    ensures var j := ToJson(env, t, v);
      && j.Object? && j.members.Keys == v.entries.Keys
      && forall k | k in v.entries ::
           j.members[k] == ToJson(env, if t.MapType? then t.element else env[t.name].fields[k].typ, v.entries[k])
  {
    hide ToJson;
    EntriesUnfolded(env, t, v);
    forall k | k in v.entries { MemberAt(env, t, v, k); }
  }

  // Enumerations are written as their value, nullable types as null or their payload,
  // variants as the alternative they hold.
  lemma WrappersWritten(env: Structs, t: Type, v: Data)
    requires HasType(env, t, v)
    ensures t.EnumType? ==>
      ToJson(env, t, v) == ToJson(env, t.base, if v.index < |t.values| then t.values[v.index] else v.custom)
    ensures t.NullableType? && v.NullableNull? ==> ToJson(env, t, v) == Null
    ensures t.NullableType? && v.NullableSet? ==> ToJson(env, t, v) == ToJson(env, t.payload, v.payload)
    ensures t.VariantType? ==> ToJson(env, t, v) == ToJson(env, t.alternatives[v.index], v.payload)
  {
    if t.EnumType? { assert HasType(env, t.base, EnumValue(t.values, v)); }
  }

  // ---------------------------------------------------------------- numbers, from type to type

  // A number is read by value: an integer by a floating-point target, and a decimal
  // without a fraction by an integer target, as long as it is in range; out of range
  // the cast decides.
  lemma NumbersRead(cast: Cast, env: Structs, i: int)
    ensures FromJson(cast, env, DoubleType, Integer(i)) == Some(DoubleData(i as real))
    ensures FromJson(cast, env, DoubleType, Decimal(i as real)) == Some(DoubleData(i as real))
    ensures -0x8000_0000 <= i < 0x8000_0000 ==>
      && FromJson(cast, env, IntType, Integer(i)) == Some(IntData(i))
      && FromJson(cast, env, IntType, Decimal(i as real)) == Some(IntData(i))
    ensures 0 <= i < 0x1_0000_0000 ==>
      && FromJson(cast, env, UIntType, Integer(i)) == Some(IntData(i))
      && FromJson(cast, env, UIntType, Decimal(i as real)) == Some(IntData(i))
    ensures i < -0x8000_0000 || 0x8000_0000 <= i ==>
      FromJson(cast, env, IntType, Decimal(i as real)) == Some(IntData(cast(IntType, i)))
    ensures i < 0 || 0x1_0000_0000 <= i ==>
      FromJson(cast, env, UIntType, Decimal(i as real)) == Some(IntData(cast(UIntType, i)))
  {
    assert (-(i as real)).Floor == -i;
  }

  // A decimal with a fraction loses it towards zero.
  lemma FractionsLost(cast: Cast, env: Structs, i: int, fraction: real)
    requires 0.0 < fraction < 1.0
    ensures 0 <= i < 0x8000_0000 ==> FromJson(cast, env, IntType, Decimal(i as real + fraction)) == Some(IntData(i))
    ensures -0x8000_0000 <= i <= 0 ==> FromJson(cast, env, IntType, Decimal(i as real - fraction)) == Some(IntData(i))
  {
    assert (i as real + fraction).Floor == i;
    assert (-(i as real - fraction)).Floor == -i;
  }

  // What one numeric type wrote, another reads as the same number if it is in its range.
  lemma WrittenThenRead(cast: Cast, env: Structs, t: Type, v: Data)
    requires (t.IntType? || t.UIntType?) && HasType(env, t, v)
    ensures var j := ToJson(env, t, v);
      && FromJson(cast, env, DoubleType, j) == Some(DoubleData(v.i as real))
      && (v.i < 0x8000_0000 ==> FromJson(cast, env, IntType, j) == Some(IntData(v.i)))
      && (0 <= v.i ==> FromJson(cast, env, UIntType, j) == Some(IntData(v.i)))
  {
    hide FromJson, ToJson;
    ScalarsWritten(env, t, v);
    NumbersRead(cast, env, v.i);
  }

  lemma DoubleThenRead(cast: Cast, env: Structs, i: int)
    ensures var j := ToJson(env, DoubleType, DoubleData(i as real));
      && (-0x8000_0000 <= i < 0x8000_0000 ==> FromJson(cast, env, IntType, j) == Some(IntData(i)))
      && (0 <= i < 0x1_0000_0000 ==> FromJson(cast, env, UIntType, j) == Some(IntData(i)))
  {
    hide FromJson, ToJson;
    ScalarsWritten(env, DoubleType, DoubleData(i as real));
    NumbersRead(cast, env, i);
  }

  // ---------------------------------------------------------------- what is refused

  // Every kind of JSON value is read by its own scalar type and no other; a null type
  // reads anything.
  lemma ScalarsRead(cast: Cast, env: Structs, j: Value)
    ensures FromJson(cast, env, NullType, j) == Some(NullData)
    ensures FromJson(cast, env, BoolType, j) == match j case Boolean(b) => Some(BoolData(b)) case _ => None
    ensures FromJson(cast, env, StringType, j) == match j case String(s) => Some(StringData(s)) case _ => None
    ensures FromJson(cast, env, DoubleType, j) ==
      match j case Integer(i) => Some(DoubleData(i as real)) case Decimal(d) => Some(DoubleData(d)) case _ => None
    ensures FromJson(cast, env, IntType, j).Some? <==> j.Integer? || j.Decimal?
    ensures FromJson(cast, env, UIntType, j).Some? <==> j.Integer? || j.Decimal?
  {
  }

  // A scalar type accepts what it can read, the null type only null.
  lemma ScalarsAccepted(cast: Cast, env: Structs, t: Type, j: Value)
    ensures CanDeserialize(env, NullType, j) <==> j == Null
    ensures t.BoolType? || t.IntType? || t.UIntType? || t.DoubleType? || t.StringType? ==>
      (CanDeserialize(env, t, j) <==> FromJson(cast, env, t, j).Some?)
    ensures t.EnumType? && IsEnumBase(t.base) ==>
      (CanDeserialize(env, t, j) <==> FromJson(cast, env, t, j).Some?)
  {
  }

  // An object of a map or a structure, an array of a vector or a tuple, and nothing
  // else of any of them; a structure needs its required keys, a tuple its length.
  lemma KindsAccepted(env: Structs, t: Type, j: Value)
    ensures t.MapType? ==> (CanDeserialize(env, t, j) <==> j.Object?)
    ensures t.StructType? && t.name in env ==>
      (CanDeserialize(env, t, j) <==> j.Object? && env[t.name].required <= j.members.Keys)
    ensures t.VectorType? ==>
      (CanDeserialize(env, t, j) <==> j.Array? && (|j.elements| > 0 ==> CanDeserialize(env, t.element, j.elements[0])))
    ensures t.TupleType? ==>
      (CanDeserialize(env, t, j) <==>
         j.Array? && |j.elements| == |t.elements|
         && exists i | 0 <= i < |j.elements| :: CanDeserialize(env, t.elements[i], j.elements[i]))
    ensures t.NullableType? ==> (CanDeserialize(env, t, j) <==> j == Null || CanDeserialize(env, t.payload, j))
    ensures t.VariantType? ==>
      (CanDeserialize(env, t, j) <==> exists i | 0 <= i < |t.alternatives| :: CanDeserialize(env, t.alternatives[i], j))
  {
    if t.TupleType? && j.Array? && |j.elements| == |t.elements| { SomeElementAccepted(env, t, j.elements, 0); }
    if t.VariantType? { NoneAccepted(env, t, j, 0); }
  }

  // Types without a null type in them but as a whole, and with tuples that are not
  // empty: a null type reads what it does not accept.
  predicate IsProper(t: Type)
    decreases t
  {
    match t
    case NullType => false
    case VectorType(element) => IsProper(element)
    case TupleType(elements) => elements != [] && forall i | 0 <= i < |elements| :: IsProper(elements[i])
    case EnumType(base, _) => IsEnumBase(base)
    case NullableType(payload) => IsProper(payload)
    case _ => true
  }

  // The acceptance test is complete: what a type can read, it accepts.
  lemma {:induction false} ReadableAccepted(cast: Cast, env: Structs, t: Type, j: Value)
    requires WellFormed(env) && IsProper(t) && FromJson(cast, env, t, j).Some?
    ensures CanDeserialize(env, t, j)
    decreases t
  {
    hide FromJson, CanDeserialize;
    ShapesRefused(cast, env, t, j);
    KindsAccepted(env, t, j);
    match t {
      case VectorType(element) =>
        var ds := VectorParts(cast, env, element, j);
        VectorRead(cast, env, element, j.elements, ds);
        if j.elements != [] { ReadableAccepted(cast, env, element, j.elements[0]); }
      case TupleType(elements) =>
        var ds := TupleParts(cast, env, elements, j);
        TupleRead(cast, env, elements, j.elements, ds);
        ReadableAccepted(cast, env, elements[0], j.elements[0]);
      case StructType(name) =>
        RequiredRead(cast, env, name, j);
      case NullableType(payload) =>
        NullableUnfolded(cast, env, payload, j);
        if j != Null { ReadableAccepted(cast, env, payload, j); }
      case VariantType(alternatives) =>
        VariantRead(cast, env, t, j);
      case _ =>
        ScalarsAccepted(cast, env, t, j);
    }
  }

  lemma VectorParts(cast: Cast, env: Structs, element: Type, j: Value) returns (ds: seq<Data>)
    requires j.Array? && FromJson(cast, env, VectorType(element), j).Some?
    ensures FromJson(cast, env, VectorType(element), j) == Some(VectorData(ds)) && |ds| == |j.elements|
  {
    ds := FromJson(cast, env, VectorType(element), j).value.items;
  }

  lemma TupleParts(cast: Cast, env: Structs, ts: seq<Type>, j: Value) returns (ds: seq<Data>)
    requires j.Array? && |j.elements| == |ts| && FromJson(cast, env, TupleType(ts), j).Some?
    ensures FromJson(cast, env, TupleType(ts), j) == Some(TupleData(ds)) && |ds| == |ts|
  {
    ds := FromJson(cast, env, TupleType(ts), j).value.items;
  }

  lemma RequiredRead(cast: Cast, env: Structs, name: string, j: Value)
    requires WellFormed(env) && j.Object? && FromJson(cast, env, StructType(name), j).Some?
    ensures name in env && env[name].required <= j.members.Keys
  {
    hide CanDeserialize;
    var os := FieldsFromJson(cast, env, env[name].fields, j);
    forall k | k in env[name].required ensures k in j.members {
      assert os[k] == FieldFromJson(cast, env, env[name].fields[k], k, j);
    }
  }

  lemma VariantRead(cast: Cast, env: Structs, t: Type, j: Value)
    requires t.VariantType? && FromJson(cast, env, t, j).Some?
    ensures CanDeserialize(env, t, j)
  {
  }

  // ---------------------------------------------------------------- inside other types

  lemma VectorRead(cast: Cast, env: Structs, element: Type, js: seq<Value>, ds: seq<Data>)
    requires |ds| == |js|
    ensures FromJson(cast, env, VectorType(element), Array(js)) == Some(VectorData(ds)) <==>
      forall i | 0 <= i < |js| :: FromJson(cast, env, element, js[i]) == Some(ds[i])
  {
    hide Collected, FromJson;
    VectorUnfolded(cast, env, element, js);
    var os := ElementsFromJson(cast, env, seq(|js|, _ => element), Array(js));
    CollectedIs(os, ds);
  }

  lemma VectorUnfolded(cast: Cast, env: Structs, element: Type, js: seq<Value>)
    ensures FromJson(cast, env, VectorType(element), Array(js)) ==
      match Collected(ElementsFromJson(cast, env, seq(|js|, _ => element), Array(js)))
      case Some(items) => Some(VectorData(items))
      case None => None
  {
    hide Collected, ElementsFromJson;
  }

  lemma TupleRead(cast: Cast, env: Structs, ts: seq<Type>, js: seq<Value>, ds: seq<Data>)
    requires |ds| == |js| == |ts|
    ensures FromJson(cast, env, TupleType(ts), Array(js)) == Some(TupleData(ds)) <==>
      forall i | 0 <= i < |js| :: FromJson(cast, env, ts[i], js[i]) == Some(ds[i])
  {
    hide Collected, FromJson;
    TupleUnfolded(cast, env, ts, js);
    CollectedIs(ElementsFromJson(cast, env, ts, Array(js)), ds);
  }

  lemma TupleUnfolded(cast: Cast, env: Structs, ts: seq<Type>, js: seq<Value>)
    requires |js| == |ts|
    ensures FromJson(cast, env, TupleType(ts), Array(js)) ==
      match Collected(ElementsFromJson(cast, env, ts, Array(js)))
      case Some(items) => Some(TupleData(items))
      case None => None
  {
    hide Collected, ElementsFromJson;
  }

  lemma MapRead(cast: Cast, env: Structs, element: Type, ms: map<string, Value>, ds: map<string, Data>)
    requires ds.Keys == ms.Keys
    ensures FromJson(cast, env, MapType(element), Object(ms)) == Some(MapData(ds)) <==>
      forall k | k in ms :: FromJson(cast, env, element, ms[k]) == Some(ds[k])
  {
    hide CollectedMap, FromJson;
    MapUnfolded(cast, env, element, ms);
    CollectedMapIs(MembersFromJson(cast, env, element, Object(ms)), ds);
  }

  lemma MapUnfolded(cast: Cast, env: Structs, element: Type, ms: map<string, Value>)
    ensures FromJson(cast, env, MapType(element), Object(ms)) ==
      match CollectedMap(MembersFromJson(cast, env, element, Object(ms)))
      case Some(entries) => Some(MapData(entries))
      case None => None
  {
    hide CollectedMap, MembersFromJson;
  }

  // Each property by itself: a key that is there is read by the type of the property,
  // a missing one needs an optional property, and null for an optional property that
  // does not take it counts as missing.  Unknown keys are ignored.
  ghost predicate FieldRead(cast: Cast, env: Structs, f: Field, k: string, ms: map<string, Value>,
                            ds: map<string, Data>) {
    if k in ms && !(f.isOptional && ms[k] == Null && !CanDeserialize(env, f.typ, Null)) then
      k in ds && FromJson(cast, env, f.typ, ms[k]) == Some(ds[k])
    else f.isOptional && k !in ds
  }

  lemma StructRead(cast: Cast, env: Structs, name: string, ms: map<string, Value>, ds: map<string, Data>)
    requires name in env && ds.Keys <= env[name].fields.Keys
    ensures FromJson(cast, env, StructType(name), Object(ms)) == Some(StructData(ds)) <==>
      forall k | k in env[name].fields :: FieldRead(cast, env, env[name].fields[k], k, ms, ds)
  {
    hide CollectedFields, FromJson, FieldRead, FieldFromJson;
    StructUnfolded(cast, env, name, ms);
    var os := FieldsFromJson(cast, env, env[name].fields, Object(ms));
    CollectedFieldsIs(os, ds);
    forall k | k in env[name].fields
      ensures os[k] == Some(Present(ds, k)) <==> FieldRead(cast, env, env[name].fields[k], k, ms, ds)
    {
      FieldReadIs(cast, env, env[name].fields[k], k, ms, ds);
    }
  }

  lemma StructUnfolded(cast: Cast, env: Structs, name: string, ms: map<string, Value>)
    requires name in env
    ensures FromJson(cast, env, StructType(name), Object(ms)) ==
      match CollectedFields(FieldsFromJson(cast, env, env[name].fields, Object(ms)))
      case Some(entries) => Some(StructData(entries))
      case None => None
  {
    hide CollectedFields, FieldsFromJson;
  }

  lemma FieldReadIs(cast: Cast, env: Structs, f: Field, k: string, ms: map<string, Value>, ds: map<string, Data>)
    ensures FieldFromJson(cast, env, f, k, Object(ms)) == Some(Present(ds, k)) <==> FieldRead(cast, env, f, k, ms, ds)
  {
    hide FromJson, CanDeserialize;
  }

  lemma WrappersRead(cast: Cast, env: Structs, t: Type, j: Value, v: Data)
    ensures FromJson(cast, env, NullableType(t), Null) == Some(NullableNull)
    ensures j != Null ==>
      (FromJson(cast, env, NullableType(t), j) == Some(NullableSet(v)) <==> FromJson(cast, env, t, j) == Some(v))
  {
    hide FromJson;
    NullableUnfolded(cast, env, t, j);
    NullableUnfolded(cast, env, t, Null);
  }

  lemma NullableUnfolded(cast: Cast, env: Structs, t: Type, j: Value)
    ensures FromJson(cast, env, NullableType(t), j) ==
      if j == Null then Some(NullableNull)
      else match FromJson(cast, env, t, j)
        case Some(v) => Some(NullableSet(v))
        case None => None
  {
  }

  // A value of an enumeration is stored by the index of its first place, any other as
  // it is.
  lemma EnumRead(cast: Cast, env: Structs, base: Type, values: seq<Data>, j: Value, v: Data)
    requires IsEnumBase(base) && FromJson(cast, env, base, j) == Some(v)
    ensures var r := FromJson(cast, env, EnumType(base, values), j);
      && r.Some? && r.value.EnumData?
      && (v in values ==> r.value.index < |values| && values[r.value.index] == v && v !in values[..r.value.index])
      && (v in values ==> r.value.custom == if base.StringType? then StringData("") else IntData(0))
      && (v !in values ==> r.value == EnumData(|values|, v))
  {
    FirstIndex(values, v);
    var i := IndexOf(values, v);
    if i < |values| { assert values[i] in values; }
    forall k | 0 <= k < i ensures values[k] != v {}
  }

  // What does not have the shape of its type is refused.
  lemma ShapesRefused(cast: Cast, env: Structs, t: Type, j: Value)
    ensures (t.VectorType? || t.TupleType?) && !j.Array? ==> FromJson(cast, env, t, j) == None
    ensures t.TupleType? && j.Array? && |j.elements| != |t.elements| ==> FromJson(cast, env, t, j) == None
    ensures (t.MapType? || t.StructType?) && !j.Object? ==> FromJson(cast, env, t, j) == None
  {
  }

  // ---------------------------------------------------------------- numbers inside other types

  // Vectors and maps of one integer type, read as vectors and maps of doubles.
  lemma IntegersAsDoubles(cast: Cast, env: Structs, t: Type, v: Data)
    requires (t.VectorType? || t.MapType?) && (t.element.IntType? || t.element.UIntType?) && HasType(env, t, v)
    ensures t.VectorType? ==>
      FromJson(cast, env, VectorType(DoubleType), ToJson(env, t, v)) ==
        Some(VectorData(seq(|v.items|, i requires 0 <= i < |v.items| => AsDouble(v.items[i]))))
    ensures t.MapType? ==>
      FromJson(cast, env, MapType(DoubleType), ToJson(env, t, v)) ==
        Some(MapData(map k | k in v.entries :: AsDouble(v.entries[k])))
  {
    hide FromJson, ToJson;
    var j := ToJson(env, t, v);
    if t.VectorType? {
      SequencesWritten(env, t, v);
      var ds := seq(|v.items|, i requires 0 <= i < |v.items| => AsDouble(v.items[i]));
      forall i | 0 <= i < |v.items| ensures FromJson(cast, env, DoubleType, j.elements[i]) == Some(ds[i]) {
        WrittenThenRead(cast, env, t.element, v.items[i]);
      }
      VectorRead(cast, env, DoubleType, j.elements, ds);
    } else {
      ObjectsWritten(env, t, v);
      var ds := map k | k in v.entries :: AsDouble(v.entries[k]);
      forall k | k in v.entries ensures FromJson(cast, env, DoubleType, j.members[k]) == Some(ds[k]) {
        WrittenThenRead(cast, env, t.element, v.entries[k]);
      }
      MapRead(cast, env, DoubleType, j.members, ds);
    }
  }

  function AsDouble(v: Data): Data { if v.IntData? then DoubleData(v.i as real) else v }
}
