// The parts of a type expression, and what it refers to, said by its parts.
module TypeParts {
  import opened Wrappers
  import opened MetaModel
  import opened TypeNames
  import opened Header

  // u stands somewhere inside t, at any depth.
  ghost predicate IsPart(u: TypeExpr, t: TypeExpr)
    decreases t
  {
    u == t ||
    match t
    case ArrayType(element) => IsPart(u, element)
    case MapType(key, value) => IsPart(u, key) || IsPart(u, value)
    case And(items) => exists i | 0 <= i < |items| :: IsPart(u, items[i])
    case Or(items) => exists i | 0 <= i < |items| :: IsPart(u, items[i])
    case Tuple(items) => exists i | 0 <= i < |items| :: IsPart(u, items[i])
    case StructureLiteral(properties) => exists i | 0 <= i < |properties| :: IsPart(u, properties[i].typ)
    case _ => false
  }

  // The names a type refers to are those of the references in it, and its literals
  // the structure literals in it.
  lemma {:induction false} RefsAreParts(t: TypeExpr, name: string, l: seq<Property>)
    ensures name in Refs(t) <==> IsPart(Reference(name), t)
    ensures l in Literals(t) <==> IsPart(StructureLiteral(l), t)
    decreases t
  {
    hide ListRefs, ListLiterals, PropertyRefs, PropertyLiterals;
    match t {
      case ArrayType(element) => RefsAreParts(element, name, l);
      case MapType(key, value) =>
        RefsAreParts(key, name, l);
        RefsAreParts(value, name, l);
      case And(items) => ListRefsAreParts(items, name, l);
      case Or(items) => ListRefsAreParts(items, name, l);
      case Tuple(items) => ListRefsAreParts(items, name, l);
      case StructureLiteral(properties) => PropertyRefsAreParts(properties, name, l);
      case _ =>
    }
  }

  lemma {:induction false} ListRefsAreParts(items: seq<TypeExpr>, name: string, l: seq<Property>)
    ensures name in ListRefs(items) <==> exists i | 0 <= i < |items| :: IsPart(Reference(name), items[i])
    ensures l in ListLiterals(items) <==> exists i | 0 <= i < |items| :: IsPart(StructureLiteral(l), items[i])
    decreases items
  {
    hide IsPart, Refs, Literals;
    if items != [] {
      var rest := items[1..];
      RefsAreParts(items[0], name, l);
      ListRefsAreParts(rest, name, l);
      assert forall i | 0 <= i < |rest| :: rest[i] == items[i + 1];
      assert forall i | 0 < i < |items| :: items[i] == rest[i - 1];
    }
  }

  lemma {:induction false} PropertyRefsAreParts(properties: seq<Property>, name: string, l: seq<Property>)
    ensures name in PropertyRefs(properties) <==>
      exists i | 0 <= i < |properties| :: IsPart(Reference(name), properties[i].typ)
    ensures l in PropertyLiterals(properties) <==>
      exists i | 0 <= i < |properties| :: IsPart(StructureLiteral(l), properties[i].typ)
    decreases properties
  {
    hide IsPart, Refs, Literals;
    if properties != [] {
      var rest := properties[1..];
      RefsAreParts(properties[0].typ, name, l);
      PropertyRefsAreParts(rest, name, l);
      assert forall i | 0 <= i < |rest| :: rest[i] == properties[i + 1];
      assert forall i | 0 < i < |properties| :: properties[i] == rest[i - 1];
    }
  }

  // u stands in what a definition names: its bases, mixins and properties, or the type
  // it is another name of.
  ghost predicate IsPartOf(u: TypeExpr, d: Definition) {
    match d
    case Enumeration(_) => false
    case TypeAlias(target) => IsPart(u, target)
    case Structure(extends_, mixins, properties) =>
      || (exists i | 0 <= i < |extends_| :: IsPart(u, extends_[i]))
      || (exists i | 0 <= i < |mixins| :: IsPart(u, mixins[i]))
      || (exists i | 0 <= i < |properties| :: IsPart(u, properties[i].typ))
  }

  lemma DefinitionRefsAreParts(d: Definition, name: string, l: seq<Property>)
    ensures name in DefinitionRefs(d) <==> IsPartOf(Reference(name), d)
    ensures l in DefinitionLiterals(d) <==> IsPartOf(StructureLiteral(l), d)
  {
    hide IsPart, Refs, Literals, ListRefs, ListLiterals, PropertyRefs, PropertyLiterals;
    match d {
      case Enumeration(_) =>
      case TypeAlias(target) => RefsAreParts(target, name, l);
      case Structure(extends_, mixins, properties) =>
        ListRefsAreParts(extends_, name, l);
        ListRefsAreParts(mixins, name, l);
        PropertyRefsAreParts(properties, name, l);
    }
  }

  // ---------------------------------------------------------------- what needs a name

  // u is asked for a name of its own when t is: not inside an intersection or a
  // structure literal, and not the element of an array of LSPAny.
  ghost predicate IsAsked(u: TypeExpr, t: TypeExpr)
    decreases t
  {
    u == t ||
    match t
    case ArrayType(element) => element != Reference("LSPAny") && IsAsked(u, element)
    case MapType(key, value) => IsAsked(u, key) || IsAsked(u, value)
    case Or(items) => exists i | 0 <= i < |items| :: IsAsked(u, items[i])
    case Tuple(items) => exists i | 0 <= i < |items| :: IsAsked(u, items[i])
    case _ => false
  }

  // What is asked for has to be defined; a union needs an alternative, and the key of
  // a map has to be known for a string or not.
  ghost predicate IsNamed(defs: Definitions, u: TypeExpr) {
    match u
    case Reference(name) => name in defs
    case Or(items) => items != []
    case MapType(key, _) => !Missing(defs, key) && !Circular(defs, key)
    case _ => true
  }

  lemma KeyKnown(defs: Definitions, key: TypeExpr)
    ensures StringTypeIn(defs, key, |defs|).Success? <==> !Missing(defs, key) && !Circular(defs, key)
  {
    StringTypeEnds(defs, key);
    var a := StringTypeIn(defs, key, |defs|);
    if a.Failure? {
      match a.error {
        case Throws => assert a == Failure(Throws);
        case Endless => assert a == Failure(Endless);
      }
    }
  }

  // A type has a name exactly when everything that is asked for has.
  lemma {:induction false} NameableExactly(defs: Definitions, t: TypeExpr)
    ensures Nameable(defs, t) <==> forall u | IsAsked(u, t) :: IsNamed(defs, u)
    decreases t
  {
    hide StringTypeIn, Missing, Circular, NamesStop;
    match t {
      case ArrayType(element) =>
        NameableExactly(defs, element);
        assert IsAsked(t, t);
      case MapType(key, value) =>
        KeyKnown(defs, key);
        NameableExactly(defs, key);
        NameableExactly(defs, value);
        assert IsAsked(t, t);
        assert forall u :: IsAsked(u, t) <==> u == t || IsAsked(u, key) || IsAsked(u, value);
      case Or(items) =>
        ListNameableExactly(defs, items);
        assert IsAsked(t, t);
      case Tuple(items) =>
        ListNameableExactly(defs, items);
        assert IsAsked(t, t);
        EmptyNames(defs);
      case _ =>
        assert IsAsked(t, t);
    }
  }

  lemma EmptyNames(defs: Definitions)
    ensures NamesStop(defs, []) == None
  {
  }

  lemma {:induction false} ListNameableExactly(defs: Definitions, items: seq<TypeExpr>)
    ensures NamesStop(defs, items).None? <==>
      forall u, i | 0 <= i < |items| && IsAsked(u, items[i]) :: IsNamed(defs, u)
    decreases items
  {
    hide IsAsked, IsNamed, NameStop;
    if items == [] {
      EmptyNames(defs);
    } else {
      var rest := items[1..];
      NameableExactly(defs, items[0]);
      ListNameableExactly(defs, rest);
      FirstName(defs, items);
      assert forall i | 0 <= i < |rest| :: rest[i] == items[i + 1];
      assert forall i | 0 < i < |items| :: items[i] == rest[i - 1];
    }
  }

  lemma FirstName(defs: Definitions, items: seq<TypeExpr>)
    requires items != []
    ensures NamesStop(defs, items).None? <==> Nameable(defs, items[0]) && NamesStop(defs, items[1..]).None?
  {
    hide NameStop;
  }

  // ---------------------------------------------------------------- what the generator accepts

  ghost predicate AllNameable(defs: Definitions, properties: seq<Property>) {
    forall p, u | p in properties && IsAsked(u, p.typ) :: IsNamed(defs, u)
  }

  lemma {:induction false} AllNamedExactly(defs: Definitions, properties: seq<Property>)
    ensures AllNamed(defs, properties) <==> AllNameable(defs, properties)
    decreases |properties|
  {
    hide IsAsked, IsNamed, NameStop;
    if properties != [] {
      NameableExactly(defs, properties[0].typ);
      AllNamedExactly(defs, properties[1..]);
      assert properties == [properties[0]] + properties[1..];
    }
  }

  predicate IsStructure(defs: Definitions, t: TypeExpr) {
    match t
    case Reference(name) => name in defs && defs[name].Structure?
    case _ => false
  }

  // What a definition needs: nothing it refers to is missing, an enumeration has a base
  // type, bases and mixins are structures, and every property, also those of the mixins
  // and of the structure literals, and the target of an alias have a name.
  ghost predicate IsDeclarable(defs: Definitions, d: Definition) {
    && (forall name | IsPartOf(Reference(name), d) ::
          name in defs || name == "LSPArray" || name == "LSPObject" || name == "LSPAny")
    && (forall l | IsPartOf(StructureLiteral(l), d) :: AllNameable(defs, l))
    && match d
       case Enumeration(valueType) => valueType.Base?
       case TypeAlias(target) => forall u | IsAsked(u, target) :: IsNamed(defs, u)
       case Structure(extends_, mixins, properties) =>
         && (forall t | t in extends_ :: IsStructure(defs, t))
         && (forall t | t in mixins :: IsStructure(defs, t) && AllNameable(defs, defs[t.name].properties))
         && AllNameable(defs, properties)
  }

  lemma DeclarableIs(defs: Definitions, a: string)
    requires a in defs
    ensures SoundType(defs, a) <==> IsDeclarable(defs, defs[a])
  {
    hide AllNamed, AllNameable, Nameable, IsAsked, IsNamed, IsPartOf, DefinitionRefs, DefinitionLiterals;
    var d := defs[a];
    forall name ensures name in DefinitionRefs(d) <==> IsPartOf(Reference(name), d) {
      DefinitionRefsAreParts(d, name, []);
    }
    forall l ensures l in DefinitionLiterals(d) <==> IsPartOf(StructureLiteral(l), d) {
      DefinitionRefsAreParts(d, "", l);
    }
    forall l ensures AllNamed(defs, l) <==> AllNameable(defs, l) { AllNamedExactly(defs, l); }
    if d.TypeAlias? { NameableExactly(defs, d.target); }
  }

  // A model is sound exactly when each of its definitions is declarable.
  lemma SoundExactly(defs: Definitions)
    ensures SoundModel(defs) <==>
      forall a | a in defs && a != "LSPArray" && a != "LSPObject" && a != "LSPAny" :: IsDeclarable(defs, defs[a])
  {
    hide SoundType, IsDeclarable;
    forall a | a in defs ensures SoundType(defs, a) <==> IsDeclarable(defs, defs[a]) { DeclarableIs(defs, a); }
  }
}
