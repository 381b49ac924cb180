// lspgen/lspgen.cpp: what a failure of the generator tells of the meta model.
module GeneratorStops {
  import opened Wrappers
  import opened MetaModel
  import opened TypeNames
  import opened Header
  import opened Generator
  import Parts = TypeParts

  // ---------------------------------------------------------------- no name

  // A lookup for the name of u throws: a name that is not defined, a union without
  // alternatives, or a key whose aliases lead to a name that is not defined.
  ghost predicate IsLost(defs: Definitions, u: TypeExpr) {
    match u
    case Reference(name) => name !in defs
    case Or(items) => items == []
    case MapType(key, _) => Missing(defs, key)
    case _ => false
  }

  // A lookup for the name of u never ends: a key whose aliases go round in a circle.
  ghost predicate IsCircling(defs: Definitions, u: TypeExpr) { u.MapType? && Circular(defs, u.key) }

  ghost predicate Explains(defs: Definitions, u: TypeExpr, stop: Stop) {
    match stop
    case Throws => IsLost(defs, u)
    case Endless => IsCircling(defs, u)
  }

  ghost predicate Nameless(defs: Definitions, t: TypeExpr, stop: Stop) {
    exists u :: Parts.IsAsked(u, t) && Explains(defs, u, stop)
  }

  lemma NamelessPart(defs: Definitions, part: TypeExpr, t: TypeExpr, stop: Stop)
    requires Nameless(defs, part, stop) && forall u | Parts.IsAsked(u, part) :: Parts.IsAsked(u, t)
    ensures Nameless(defs, t, stop)
  {
    hide Parts.IsAsked, Explains;
    var u :| Parts.IsAsked(u, part) && Explains(defs, u, stop);
    assert Parts.IsAsked(u, t);
  }

  lemma NamelessItself(defs: Definitions, t: TypeExpr, stop: Stop)
    requires Explains(defs, t, stop)
    ensures Nameless(defs, t, stop)
  {
    assert Parts.IsAsked(t, t);
  }

  lemma KeyStop(defs: Definitions, t: TypeExpr)
    requires t.MapType? && StringTypeIn(defs, t.key, |defs|).Failure?
    ensures Explains(defs, t, StringTypeIn(defs, t.key, |defs|).error)
  {
    StringTypeEnds(defs, t.key);
    match StringTypeIn(defs, t.key, |defs|).error {
      case Throws => assert StringTypeIn(defs, t.key, |defs|) == Failure(Throws);
      case Endless => assert StringTypeIn(defs, t.key, |defs|) == Failure(Endless);
    }
  }

  // A type without a name has a part without one, of the kind that the failure tells.
  lemma {:induction false} NameStopTells(defs: Definitions, t: TypeExpr)
    requires NameStop(defs, t).Some?
    ensures Nameless(defs, t, NameStop(defs, t).value)
    decreases t
  {
    hide StringTypeIn, NamesStop, Nameless, Missing, Circular;
    match t {
      case ArrayType(element) =>
        NameStopTells(defs, element);
        NamelessPart(defs, element, t, NameStop(defs, t).value);
      case MapType(key, value) =>
        if StringTypeIn(defs, key, |defs|).Failure? {
          KeyStop(defs, t);
          NamelessItself(defs, t, NameStop(defs, t).value);
        } else if NameStop(defs, key).Some? {
          NameStopTells(defs, key);
          NamelessPart(defs, key, t, NameStop(defs, t).value);
        } else {
          NameStopTells(defs, value);
          NamelessPart(defs, value, t, NameStop(defs, t).value);
        }
      case Or(items) =>
        if items == [] {
          NamelessItself(defs, t, Throws);
        } else {
          var i := NamesStopTells(defs, items);
          NamelessPart(defs, items[i], t, NameStop(defs, t).value);
        }
      case Tuple(items) =>
        var i := NamesStopTells(defs, items);
        NamelessPart(defs, items[i], t, NameStop(defs, t).value);
      case Reference(name) =>
        NamelessItself(defs, t, Throws);
    }
  }

  // The first of a list without a name decides.
  lemma {:induction false} NamesStopTells(defs: Definitions, items: seq<TypeExpr>) returns (i: nat)
    requires NamesStop(defs, items).Some?
    ensures i < |items| && Nameless(defs, items[i], NamesStop(defs, items).value)
    ensures forall k | 0 <= k < i :: Nameable(defs, items[k])
    decreases items
  {
    hide NameStop, Nameless;
    if NameStop(defs, items[0]).Some? {
      i := 0;
      NameStopTells(defs, items[0]);
    } else {
      i := NamesStopTells(defs, items[1..]);
      i := i + 1;
    }
  }

  lemma {:induction false} PropertiesStopTells(defs: Definitions, properties: seq<Property>) returns (i: nat)
    requires PropertiesStop(defs, properties).Some?
    ensures i < |properties| && Nameless(defs, properties[i].typ, PropertiesStop(defs, properties).value)
    ensures forall k | 0 <= k < i :: Nameable(defs, properties[k].typ)
    decreases |properties|
  {
    hide NameStop, Nameless;
    if NameStop(defs, properties[0].typ).Some? {
      i := 0;
      NameStopTells(defs, properties[0].typ);
    } else {
      i := PropertiesStopTells(defs, properties[1..]);
      i := i + 1;
    }
  }

  // ---------------------------------------------------------------- no declaration

  // The types that have to be named for a definition: the target of an alias, and the
  // properties of a structure, of its mixins and of the literals inside it.
  ghost predicate NeedsName(defs: Definitions, d: Definition, t: TypeExpr) {
    || (d.TypeAlias? && t == d.target)
    || (d.Structure? && exists p | p in d.properties :: p.typ == t)
    || (d.Structure? && exists m, p | m in d.mixins && Parts.IsStructure(defs, m) && p in defs[m.name].properties ::
          p.typ == t)
    || (exists l: seq<Property>, p | Parts.IsPartOf(StructureLiteral(l), d) && p in l :: p.typ == t)
  }

  // What the model lacks: a name it refers to is not defined, an enumeration is not
  // over a base type, a base or mixin is no structure, or a type has no name.
  ghost predicate Lacks(defs: Definitions, d: Definition, stop: Stop) {
    || (exists t :: NeedsName(defs, d, t) && Nameless(defs, t, stop))
    || (stop.Throws? && IsBroken(defs, d))
  }

  ghost predicate IsBroken(defs: Definitions, d: Definition) {
    || (exists name :: Parts.IsPartOf(Reference(name), d) && name !in defs)
    || (d.Enumeration? && !d.valueType.Base?)
    || (d.Structure? && exists t | t in d.extends_ + d.mixins :: !Parts.IsStructure(defs, t))
  }

  ghost predicate Blamed(defs: Definitions, stop: Stop) { exists a | a in defs :: Lacks(defs, defs[a], stop) }

  lemma LacksName(defs: Definitions, a: string, t: TypeExpr, stop: Stop)
    requires a in defs && NeedsName(defs, defs[a], t) && Nameless(defs, t, stop)
    ensures Blamed(defs, stop)
  {
    hide NeedsName, Nameless;
    assert Lacks(defs, defs[a], stop);
  }

  lemma PropertiesBlamed(defs: Definitions, a: string, properties: seq<Property>)
    requires a in defs && PropertiesStop(defs, properties).Some?
    requires forall p | p in properties :: NeedsName(defs, defs[a], p.typ)
    ensures Blamed(defs, PropertiesStop(defs, properties).value)
  {
    hide NeedsName, Nameless, Blamed, PropertiesStop;
    var i := PropertiesStopTells(defs, properties);
    assert properties[i] in properties;
    LacksName(defs, a, properties[i].typ, PropertiesStop(defs, properties).value);
  }

  lemma {:induction false} MixinsBlamed(defs: Definitions, a: string, mixins: seq<TypeExpr>)
    requires a in defs && defs[a].Structure? && MixinsStop(defs, mixins).Some?
    requires forall m | m in mixins :: m in defs[a].mixins
    ensures Blamed(defs, MixinsStop(defs, mixins).value)
    decreases |mixins|
  {
    hide PropertiesStop, Nameless, Blamed;
    var m := mixins[0];
    assert m in mixins;
    if !IsStructureReference(defs, m) {
      NoStructure(defs, a, m);
    } else if PropertiesStop(defs, defs[m.name].properties).Some? {
      assert Parts.IsStructure(defs, m);
      PropertiesBlamed(defs, a, defs[m.name].properties);
    } else {
      MixinsBlamed(defs, a, mixins[1..]);
    }
  }

  lemma NoStructure(defs: Definitions, a: string, t: TypeExpr)
    requires a in defs && defs[a].Structure? && t in defs[a].extends_ + defs[a].mixins && !IsStructureReference(defs, t)
    ensures Blamed(defs, Throws)
  {
    hide NeedsName, Nameless, Parts.IsPartOf;
    assert !Parts.IsStructure(defs, t);
    assert Lacks(defs, defs[a], Throws);
  }

  lemma DeclareBlamed(defs: Definitions, a: string)
    requires a in defs && DeclareStop(defs, defs[a]).Some?
    ensures Blamed(defs, DeclareStop(defs, defs[a]).value)
  {
    hide Blamed, Nameless, MixinsStop, PropertiesStop, NameStop;
    var d := defs[a];
    match d {
      case Enumeration(valueType) =>
        NoBase(defs, a);
      case TypeAlias(target) =>
        NameStopTells(defs, target);
        LacksName(defs, a, target, NameStop(defs, target).value);
      case Structure(extends_, mixins, properties) =>
        if BasesStop(defs, extends_).Some? {
          var t :| t in extends_ && !IsStructureReference(defs, t);
          NoStructure(defs, a, t);
        } else if MixinsStop(defs, mixins).Some? {
          MixinsBlamed(defs, a, mixins);
        } else {
          PropertiesBlamed(defs, a, properties);
        }
    }
  }

  lemma NoBase(defs: Definitions, a: string)
    requires a in defs && defs[a].Enumeration? && !defs[a].valueType.Base?
    ensures Blamed(defs, Throws)
  {
    assert Lacks(defs, defs[a], Throws);
  }

  lemma NotDefined(defs: Definitions, a: string, name: string)
    requires a in defs && Parts.IsPartOf(Reference(name), defs[a]) && name !in defs
    ensures Blamed(defs, Throws)
  {
    hide NeedsName, Nameless, Parts.IsPartOf;
    assert Lacks(defs, defs[a], Throws);
  }

  // ---------------------------------------------------------------- over the walk

  ghost predicate Inside(t: TypeExpr, d: Definition) { forall u | Parts.IsPart(u, t) :: Parts.IsPartOf(u, d) }

  lemma PartsInside(t: TypeExpr, d: Definition)
    requires Inside(t, d)
    ensures Parts.IsPartOf(t, d)
    ensures t.ArrayType? ==> Inside(t.element, d)
    ensures t.MapType? ==> Inside(t.key, d) && Inside(t.value, d)
    ensures t.And? || t.Or? || t.Tuple? ==> forall i | 0 <= i < |t.items| :: Inside(t.items[i], d)
    ensures t.StructureLiteral? ==> forall i | 0 <= i < |t.properties| :: Inside(t.properties[i].typ, d)
  {
    hide Parts.IsPartOf;
    assert Parts.IsPart(t, t);
  }

  ghost predicate Told(defs: Definitions, r: Result<Walk, Stop>) { r.Failure? ==> Blamed(defs, r.error) }

  lemma {:induction false} NamedTold(defs: Definitions, w: Walk, name: string, a: string)
    requires name in defs || (a in defs && Parts.IsPartOf(Reference(name), defs[a]))
    ensures Told(defs, VisitNamed(defs, w, name))
    decreases defs.Keys - w.processed, 0
  {
    hide Blamed, VisitDefinition, Parts.IsPartOf;
    if name !in w.processed {
      if name !in defs {
        NotDefined(defs, a, name);
      } else {
        DefinitionTold(defs, Entered(w, name), name);
      }
    }
  }

  lemma {:induction false} DefinitionTold(defs: Definitions, w: Walk, name: string)
    requires name in defs
    ensures Told(defs, VisitDefinition(defs, w, name))
    decreases defs.Keys - w.processed, 3
  {
    hide Blamed, VisitType, VisitList, VisitProperties, DeclareStop, Parts.IsPart, ItemOf;
    if DeclareStop(defs, defs[name]).Some? { DeclareBlamed(defs, name); }
    match defs[name] {
      case Enumeration(_) =>
      case TypeAlias(target) => TypeTold(defs, w, target, name);
      case Structure(extends_, mixins, properties) =>
        ListTold(defs, w, extends_, name);
        var r1 := VisitList(defs, w, extends_);
        if r1.Success? {
          ListTold(defs, r1.value, mixins, name);
          var r2 := VisitList(defs, r1.value, mixins);
          if r2.Success? { PropertiesTold(defs, r2.value, properties, name); }
        }
    }
  }

  lemma {:induction false} ListTold(defs: Definitions, w: Walk, types: seq<TypeExpr>, a: string)
    requires a in defs && forall i | 0 <= i < |types| :: Inside(types[i], defs[a])
    ensures Told(defs, VisitList(defs, w, types))
    decreases defs.Keys - w.processed, 1, types
  {
    hide Blamed, VisitType, Inside;
    if types != [] {
      TypeTold(defs, w, types[0], a);
      var r := VisitType(defs, w, types[0]);
      if r.Success? { ListTold(defs, r.value, types[1..], a); }
    }
  }

  lemma {:induction false} PropertiesTold(defs: Definitions, w: Walk, properties: seq<Property>, a: string)
    requires a in defs && forall i | 0 <= i < |properties| :: Inside(properties[i].typ, defs[a])
    ensures Told(defs, VisitProperties(defs, w, properties))
    decreases defs.Keys - w.processed, 1, properties
  {
    hide Blamed, VisitType, Inside;
    if properties != [] {
      TypeTold(defs, w, properties[0].typ, a);
      var r := VisitType(defs, w, properties[0].typ);
      if r.Success? { PropertiesTold(defs, r.value, properties[1..], a); }
    }
  }

  lemma {:induction false} TypeTold(defs: Definitions, w: Walk, t: TypeExpr, a: string)
    requires a in defs && Inside(t, defs[a])
    ensures Told(defs, VisitType(defs, w, t))
    decreases defs.Keys - w.processed, 1, t
  {
    hide Blamed, VisitNamed, VisitList, VisitProperties, PropertiesStop, UsesOf, Inside, Parts.IsPartOf;
    PartsInside(t, defs[a]);
    match t {
      case Reference(name) => NamedTold(defs, w, name, a);
      case ArrayType(element) => TypeTold(defs, w, element, a);
      case MapType(key, value) =>
        TypeTold(defs, w, key, a);
        var r := VisitType(defs, w, key);
        if r.Success? { TypeTold(defs, r.value, value, a); }
      case And(items) => ListTold(defs, w, items, a);
      case Or(items) => ListTold(defs, w, items, a);
      case Tuple(items) => ListTold(defs, w, items, a);
      case StructureLiteral(properties) =>
        PropertiesTold(defs, w, properties, a);
        if PropertiesStop(defs, properties).Some? { LiteralBlamed(defs, a, properties); }
      case _ =>
    }
  }

  lemma LiteralBlamed(defs: Definitions, a: string, l: seq<Property>)
    requires a in defs && Parts.IsPartOf(StructureLiteral(l), defs[a]) && PropertiesStop(defs, l).Some?
    ensures Blamed(defs, PropertiesStop(defs, l).value)
  {
    hide Blamed, PropertiesStop, Parts.IsPartOf;
    PropertiesBlamed(defs, a, l);
  }

  lemma {:induction false} NamesTold(defs: Definitions, w: Walk, names: seq<string>)
    requires forall a | a in names :: a in defs
    ensures Told(defs, VisitNames(defs, w, names))
    decreases |names|
  {
    hide Blamed, VisitNamed;
    if names != [] {
      NamedTold(defs, w, names[0], "");
      var r := VisitNamed(defs, w, names[0]);
      if r.Success? { NamesTold(defs, r.value, names[1..]); }
    }
  }

  // A generator that throws has met something that is missing or of the wrong kind,
  // and one that does not end a key that goes round in a circle.
  lemma FailureTells(defs: Definitions, typeNames: seq<string>)
    requires (forall a :: a in typeNames <==> a in defs) && Generated(defs, typeNames).Failure?
    ensures Blamed(defs, Generated(defs, typeNames).error)
  {
    hide Blamed, VisitNames;
    NamesTold(defs, Walk(PREMARKED, {}, [], []), typeNames);
  }
}
