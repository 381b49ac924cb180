// lspgen/lspgen.cpp: the types of the protocol's meta model, as the generator
// holds them.
module MetaModel {
  datatype TypeExpr =
    | Base(kind: string)
    | Reference(name: string)
    | ArrayType(element: TypeExpr)
    | MapType(key: TypeExpr, value: TypeExpr)
    | And(items: seq<TypeExpr>)
    | Or(items: seq<TypeExpr>)
    | Tuple(items: seq<TypeExpr>)
    | StructureLiteral(properties: seq<Property>)
    | Literal

  datatype Property = Property(name: string, typ: TypeExpr, isOptional: bool)

  datatype Definition =
    | Enumeration(valueType: TypeExpr)
    | Structure(extends_: seq<TypeExpr>, mixins: seq<TypeExpr>, properties: seq<Property>)
    | TypeAlias(target: TypeExpr)

  type Definitions = map<string, Definition>

  // Written by hand in the generated header.
  const PREMARKED: set<string> := {"LSPArray", "LSPObject", "LSPAny"}

  // The names a type expression refers to, at any depth.
  function Refs(t: TypeExpr): set<string> {
    match t
    case Reference(name) => {name}
    case ArrayType(element) => Refs(element)
    case MapType(key, value) => Refs(key) + Refs(value)
    case And(items) => ListRefs(items)
    case Or(items) => ListRefs(items)
    case Tuple(items) => ListRefs(items)
    case StructureLiteral(properties) => PropertyRefs(properties)
    case _ => {}
  }

  function ListRefs(items: seq<TypeExpr>): set<string> {
    if items == [] then {} else Refs(items[0]) + ListRefs(items[1..])
  }

  function PropertyRefs(properties: seq<Property>): set<string> {
    if properties == [] then {} else Refs(properties[0].typ) + PropertyRefs(properties[1..])
  }

  function DefinitionRefs(d: Definition): set<string> {
    match d
    case Enumeration(_) => {}
    case Structure(extends_, mixins, properties) => ListRefs(extends_) + ListRefs(mixins) + PropertyRefs(properties)
    case TypeAlias(target) => Refs(target)
  }

  // The structure literals inside a type expression, at any depth.
  function Literals(t: TypeExpr): set<seq<Property>> {
    match t
    case ArrayType(element) => Literals(element)
    case MapType(key, value) => Literals(key) + Literals(value)
    case And(items) => ListLiterals(items)
    case Or(items) => ListLiterals(items)
    case Tuple(items) => ListLiterals(items)
    case StructureLiteral(properties) => PropertyLiterals(properties) + {properties}
    case _ => {}
  }

  function ListLiterals(items: seq<TypeExpr>): set<seq<Property>> {
    if items == [] then {} else Literals(items[0]) + ListLiterals(items[1..])
  }

  function PropertyLiterals(properties: seq<Property>): set<seq<Property>> {
    if properties == [] then {} else Literals(properties[0].typ) + PropertyLiterals(properties[1..])
  }

  function DefinitionLiterals(d: Definition): set<seq<Property>> {
    match d
    case Enumeration(_) => {}
    case Structure(extends_, mixins, properties) =>
      ListLiterals(extends_) + ListLiterals(mixins) + PropertyLiterals(properties)
    case TypeAlias(target) => Literals(target)
  }
}
