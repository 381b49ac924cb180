// lspgen/lspgen.cpp: which models the generator does not get through, and a header
// it should not have written.
module GeneratorLimits {
  import opened Wrappers
  import opened MetaModel
  import opened TypeNames
  import opened Header
  import opened Generator

  // ---------------------------------------------------------------- closed models

  function PropertyKeys(properties: seq<Property>): set<TypeExpr> {
    if properties == [] then {} else KeysIn(properties[0].typ) + PropertyKeys(properties[1..])
  }

  predicate PropertiesShaped(properties: seq<Property>) {
    properties == [] || (NoEmptyUnion(properties[0].typ) && PropertiesShaped(properties[1..]))
  }

  // What extraction and the protocol's own rules see to: no empty union, base
  // types for enumerations, structures for bases and mixins.
  ghost predicate Shaped(defs: Definitions, d: Definition) {
    && (match d
        case Enumeration(valueType) => valueType.Base?
        case TypeAlias(target) => NoEmptyUnion(target)
        case Structure(extends_, mixins, properties) =>
          && (forall t | t in extends_ :: IsStructureReference(defs, t))
          && (forall t | t in mixins :: IsStructureReference(defs, t))
          && PropertiesShaped(properties))
    && forall l | l in DefinitionLiterals(d) :: PropertiesShaped(l)
  }

  ghost predicate ShapedModel(defs: Definitions) { forall a | a in defs :: Shaped(defs, defs[a]) }

  // No map that has to be named for the definition has a key that goes round in a
  // circle.
  ghost predicate NoCircleFor(defs: Definitions, d: Definition) {
    && (match d
        case Enumeration(_) => true
        case TypeAlias(target) => NoCircle(defs, KeysIn(target))
        case Structure(_, mixins, properties) =>
          && (forall t | t in mixins && IsStructureReference(defs, t) ::
                NoCircle(defs, PropertyKeys(defs[t.name].properties)))
          && NoCircle(defs, PropertyKeys(properties)))
    && forall l | l in DefinitionLiterals(d) :: NoCircle(defs, PropertyKeys(l))
  }

  lemma {:induction false} ClosedAllNamed(defs: Definitions, properties: seq<Property>)
    requires Closed(defs) && PropertyRefs(properties) <= defs.Keys && PropertiesShaped(properties)
    ensures AllNamed(defs, properties) <==> NoCircle(defs, PropertyKeys(properties))
  {
    hide Closed, Circular, NameStop, Refs, KeysIn;
    if properties != [] {
      ClosedNameable(defs, properties[0].typ);
      ClosedAllNamed(defs, properties[1..]);
    }
  }

  // A literal refers to no more than what it stands in.
  lemma {:induction false} LiteralRefs(t: TypeExpr, l: seq<Property>)
    requires l in Literals(t)
    ensures PropertyRefs(l) <= Refs(t)
    decreases t
  {
    match t {
      case ArrayType(element) => LiteralRefs(element, l);
      case MapType(key, value) => if l in Literals(key) { LiteralRefs(key, l); } else { LiteralRefs(value, l); }
      case And(items) => ListLiteralRefs(items, l);
      case Or(items) => ListLiteralRefs(items, l);
      case Tuple(items) => ListLiteralRefs(items, l);
      case StructureLiteral(properties) => if l != properties { PropertyLiteralRefs(properties, l); }
    }
  }

  lemma {:induction false} ListLiteralRefs(items: seq<TypeExpr>, l: seq<Property>)
    requires l in ListLiterals(items)
    ensures PropertyRefs(l) <= ListRefs(items)
    decreases items
  {
    if l in Literals(items[0]) { LiteralRefs(items[0], l); } else { ListLiteralRefs(items[1..], l); }
  }

  lemma {:induction false} PropertyLiteralRefs(properties: seq<Property>, l: seq<Property>)
    requires l in PropertyLiterals(properties)
    ensures PropertyRefs(l) <= PropertyRefs(properties)
    decreases properties
  {
    if l in Literals(properties[0].typ) {
      LiteralRefs(properties[0].typ, l);
    } else {
      PropertyLiteralRefs(properties[1..], l);
    }
  }

  lemma DefinitionLiteralRefs(d: Definition, l: seq<Property>)
    requires l in DefinitionLiterals(d)
    ensures PropertyRefs(l) <= DefinitionRefs(d)
  {
    match d {
      case TypeAlias(target) => LiteralRefs(target, l);
      case Structure(extends_, mixins, properties) =>
        if l in ListLiterals(extends_) {
          ListLiteralRefs(extends_, l);
        } else if l in ListLiterals(mixins) {
          ListLiteralRefs(mixins, l);
        } else {
          PropertyLiteralRefs(properties, l);
        }
    }
  }

  lemma MixinsNamed(defs: Definitions, d: Definition)
    requires Closed(defs) && ShapedModel(defs) && d.Structure? && Shaped(defs, d)
    ensures forall t | t in d.mixins ::
      IsMixin(defs, t) <==> NoCircle(defs, PropertyKeys(defs[t.name].properties))
  {
    hide AllNamed, NoCircle, DefinitionLiterals;
    forall t | t in d.mixins
      ensures IsMixin(defs, t) <==> NoCircle(defs, PropertyKeys(defs[t.name].properties))
    {
      assert Shaped(defs, defs[t.name]);
      OwnRefs(defs[t.name]);
      ClosedAllNamed(defs, defs[t.name].properties);
    }
  }

  lemma DeclarableExactly(defs: Definitions, a: string)
    requires Closed(defs) && ShapedModel(defs) && a in defs
    ensures SoundType(defs, a) <==> NoCircleFor(defs, defs[a])
  {
    hide Closed, AllNamed, NoCircle, Nameable, IsMixin, DefinitionRefs, DefinitionLiterals, PropertiesShaped;
    var d := defs[a];
    assert Shaped(defs, d);
    ClosedRefs(defs, a);
    forall l | l in DefinitionLiterals(d) ensures AllNamed(defs, l) <==> NoCircle(defs, PropertyKeys(l)) {
      DefinitionLiteralRefs(d, l);
      ClosedAllNamed(defs, l);
    }
    match d {
      case Enumeration(_) =>
      case TypeAlias(target) =>
        AliasRefs(target);
        ClosedNameable(defs, target);
      case Structure(extends_, mixins, properties) =>
        OwnRefs(d);
        ClosedAllNamed(defs, properties);
        MixinsNamed(defs, d);
    }
  }

  lemma ClosedRefs(defs: Definitions, a: string)
    requires Closed(defs) && a in defs
    ensures DefinitionRefs(defs[a]) <= defs.Keys
  {
  }

  lemma AliasRefs(target: TypeExpr)
    ensures DefinitionRefs(TypeAlias(target)) == Refs(target)
  {
  }

  // In a closed, well-shaped model the generator fails exactly when the key of a
  // map that has to be named goes round in a circle of aliases.
  lemma ClosedModelEnds(defs: Definitions, typeNames: seq<string>)
    requires Closed(defs) && ShapedModel(defs) && forall a :: a in typeNames <==> a in defs
    ensures Generated(defs, typeNames).Success? <==>
      forall a | a in defs.Keys - PREMARKED :: NoCircleFor(defs, defs[a])
  {
    hide Closed, ShapedModel, SoundType, NoCircleFor, Generated, Inv, GoodHeader, NamesOf;
    GeneratedHeader(defs, typeNames);
    forall a | a in defs.Keys - PREMARKED ensures SoundType(defs, a) <==> NoCircleFor(defs, defs[a]) {
      DeclarableExactly(defs, a);
    }
  }

  // ---------------------------------------------------------------- walking by hand

  lemma ProcessedVisited(defs: Definitions, w: Walk, name: string)
    requires name in w.processed
    ensures VisitNamed(defs, w, name) == Success(w) && VisitType(defs, w, Reference(name)) == Success(w)
  {
  }

  function Finished(w: Walk, after: Walk, name: string, item: Item): Walk {
    Walk(after.processed, after.beingProcessed - {name}, after.header + [item], w.stack)
  }

  lemma AliasVisited(defs: Definitions, w: Walk, name: string, target: TypeExpr, after: Walk)
    requires name !in w.processed && name in defs && defs[name] == TypeAlias(target)
    requires VisitType(defs, Entered(w, name), target) == Success(after)
    ensures VisitNamed(defs, w, name) ==
      if NameStop(defs, target).Some? then Failure(NameStop(defs, target).value)
      else Success(Finished(w, after, name, Named(name, [], [])))
  {
    hide VisitType, NameStop;
    NothingCopied(defs, after.beingProcessed);
  }

  lemma StructureVisited(defs: Definitions, w: Walk, name: string, mixins: seq<TypeExpr>, properties: seq<Property>,
                         after: Walk)
    requires name !in w.processed && name in defs && defs[name] == Structure([], mixins, properties)
    requires VisitParts(defs, Entered(w, name), [], mixins, properties) == Success(after)
    requires MixinsStop(defs, mixins).None? && AllNamed(defs, properties)
    ensures VisitNamed(defs, w, name) ==
      Success(Finished(w, after, name, Named(name, CopiesOf(defs, mixins, after.beingProcessed),
                                             UsesOf(properties, after.beingProcessed))))
  {
    hide VisitParts, PropertiesStop, MixinsStop, CopiesOf, UsesOf;
  }

  lemma PropertiesOnly(defs: Definitions, w: Walk, properties: seq<Property>)
    ensures VisitParts(defs, w, [], [], properties) == VisitProperties(defs, w, properties)
  {
    hide VisitType;
  }

  lemma NoProperties(defs: Definitions, w: Walk)
    ensures VisitProperties(defs, w, []) == Success(w)
  {
  }

  lemma OneMixin(defs: Definitions, w: Walk, m: string)
    requires m in w.processed
    ensures VisitParts(defs, w, [], [Reference(m)], []) == Success(w)
  {
    hide VisitType;
    ProcessedVisited(defs, w, m);
    NoTypes(defs, w);
    ListStep(defs, w, [Reference(m)], 0);
    assert [Reference(m)][0..] == [Reference(m)] && [Reference(m)][1..] == [];
  }

  lemma TwoProperties(defs: Definitions, w: Walk, p: Property, q: Property, w1: Walk, w2: Walk)
    requires VisitType(defs, w, p.typ) == Success(w1) && VisitType(defs, w1, q.typ) == Success(w2)
    ensures VisitProperties(defs, w, [p, q]) == Success(w2)
  {
    hide VisitType;
    var ps := [p, q];
    PropertyStep(defs, w, ps, 0);
    PropertyStep(defs, w1, ps, 1);
    NoProperties(defs, w2);
    assert ps[0..] == ps && ps[2..] == [];
  }

  lemma ReferenceVisited(defs: Definitions, w: Walk, name: string)
    ensures VisitType(defs, w, Reference(name)) == VisitNamed(defs, w, name)
  {
    hide VisitNamed;
  }

  // ---------------------------------------------------------------- a generator that does not end

  const SELF_KEYED: Definitions :=
    map["A" := TypeAlias(Reference("A")), "M" := TypeAlias(MapType(Reference("A"), Base("string")))]

  lemma SelfKeyedKey()
    ensures Closed(SELF_KEYED)
    ensures StringTypeIn(SELF_KEYED, Reference("A"), |SELF_KEYED|) == Failure(Endless)
  {
    CircleEndless(SELF_KEYED, Reference("A"), 1, |SELF_KEYED|);
  }

  lemma KeyAndValue(defs: Definitions, w: Walk, key: string)
    requires key in w.processed
    ensures VisitType(defs, w, MapType(Reference(key), Base("string"))) == Success(w)
  {
    ProcessedVisited(defs, w, key);
  }

  lemma EndlessMap(defs: Definitions, key: TypeExpr)
    requires StringTypeIn(defs, key, |defs|) == Failure(Endless)
    ensures NameStop(defs, MapType(key, Base("string"))) == Some(Endless)
  {
    hide StringTypeIn;
  }

  // A map from an alias of itself: a closed model on which the generator does not
  // end.
  lemma SelfKeyedModel()
    ensures Closed(SELF_KEYED) && Generated(SELF_KEYED, ["A", "M"]) == Failure(Endless)
  {
    hide StringTypeIn, NameStop, VisitNamed, VisitType, VisitNames, Closed;
    var defs, w := SELF_KEYED, Walk(PREMARKED, {}, [], []);
    SelfKeyedKey();
    var inA := Entered(w, "A");
    ProcessedVisited(defs, inA, "A");
    AliasVisited(defs, w, "A", Reference("A"), inA);
    SelfNamed();
    var afterA := Finished(w, inA, "A", Named("A", [], []));
    var map_ := MapType(Reference("A"), Base("string"));
    KeyAndValue(defs, Entered(afterA, "M"), "A");
    AliasVisited(defs, afterA, "M", map_, Entered(afterA, "M"));
    EndlessMap(defs, Reference("A"));
    NamesStep(defs, w, ["A", "M"], 0);
    NamesStep(defs, afterA, ["A", "M"], 1);
    assert ["A", "M"][0..] == ["A", "M"];
  }

  lemma SelfNamed()
    ensures NameStop(SELF_KEYED, Reference("A")) == None
  {
  }

  // ---------------------------------------------------------------- a type used before it is declared

  // In any state of the walk a reference copied from a mixin is a std::optional of
  // an incomplete type exactly when that type has not been reached yet.
  lemma TooEarlyExactly(defs: Definitions, w: Walk, properties: seq<Property>, u: Use)
    requires Inv(defs, w) && u in UsesOf(properties, w.beingProcessed)
    ensures !u.boxed && u.target in Incomplete(w.header, {u.target}) <==> u.target !in w.processed
  {
    hide NamesOf, GoodHeader, DefinitionRefs, Declarable, OnStack, UsesOf, PropertyRefs, Incomplete;
    UsesTell(properties, w.beingProcessed, u);
    IncompleteIs(w.header, {u.target}, u.target);
  }

  const TO_S := Property("a", Reference("S"), true)
  const TO_T := Property("b", Reference("T"), true)

  const MIXED: Definitions := map[
    "M" := Structure([], [], [TO_S, TO_T]),
    "S" := Structure([], [Reference("M")], []),
    "T" := Structure([], [], [])]

  const EARLY_S := Named("S", [Copied("M", [Use("a", "S", true), Use("b", "T", false)])], [])

  lemma MixedClosed()
    ensures Closed(MIXED)
  {
    assert [TO_S, TO_T][1..] == [TO_T] && [TO_T][1..] == [] && [Reference("M")][1..] == [];
    assert PropertyRefs([TO_T]) == {"T"};
    assert PropertyRefs([TO_S, TO_T]) == {"S", "T"};
    assert ListRefs([Reference("M")]) == {"M"};
  }

  lemma MixedNames()
    ensures AllNamed(MIXED, [TO_S, TO_T]) && AllNamed(MIXED, [])
    ensures MixinsStop(MIXED, []).None? && MixinsStop(MIXED, [Reference("M")]).None?
  {
    assert [TO_S, TO_T][1..] == [TO_T] && [TO_T][1..] == [] && [Reference("M")][1..] == [];
    assert PropertiesStop(MIXED, []) == None;
    assert PropertiesStop(MIXED, [TO_T]) == None;
    assert PropertiesStop(MIXED, [TO_S, TO_T]) == None;
  }

  lemma MixedUses(boxed: set<string>)
    ensures UsesOf([TO_S, TO_T], boxed) == [Use("a", "S", "S" in boxed), Use("b", "T", "T" in boxed)]
    ensures CopiesOf(MIXED, [Reference("M")], boxed) == [Copied("M", UsesOf([TO_S, TO_T], boxed))]
    ensures CopiesOf(MIXED, [], boxed) == [] && UsesOf([], boxed) == []
  {
    assert [TO_S, TO_T][1..] == [TO_T] && [TO_T][1..] == [] && [Reference("M")][1..] == [];
    assert UsesOf([TO_T], boxed) == [Use("b", "T", "T" in boxed)];
  }

  // S, entered from M.
  lemma EarlyS(w: Walk)
    requires "S" !in w.processed && "M" in w.processed && "T" !in w.beingProcessed
    ensures VisitType(MIXED, w, Reference("S")) == Success(Finished(w, Entered(w, "S"), "S", EARLY_S))
  {
    hide VisitNamed, VisitType, VisitParts, UsesOf, CopiesOf, PropertiesStop, MixinsStop, Closed;
    var inS := Entered(w, "S");
    MixedNames();
    OneMixin(MIXED, inS, "M");
    MixedUses(inS.beingProcessed);
    StructureVisited(MIXED, w, "S", [Reference("M")], [], inS);
    ReferenceVisited(MIXED, w, "S");
  }

  lemma LateT(w: Walk)
    requires "T" !in w.processed
    ensures VisitType(MIXED, w, Reference("T")) == Success(Finished(w, Entered(w, "T"), "T", Named("T", [], [])))
  {
    hide VisitNamed, VisitType, VisitParts, UsesOf, CopiesOf, PropertiesStop, MixinsStop, Closed, VisitProperties;
    var inT := Entered(w, "T");
    MixedNames();
    PropertiesOnly(MIXED, inT, []);
    NoProperties(MIXED, inT);
    MixedUses(inT.beingProcessed);
    StructureVisited(MIXED, w, "T", [], [], inT);
    ReferenceVisited(MIXED, w, "T");
  }

  // M has optional properties a of type S and b of type T, and S mixes M in. S is
  // declared while M is being processed, with a std::optional of T, which is
  // declared only afterwards.
  lemma CopiedTooEarly()
    ensures var r := Generated(MIXED, ["M", "S", "T"]);
      && Closed(MIXED) && r.Success?
      && r.value.header ==
           [EARLY_S, Named("T", [], []), Named("M", [], [Use("a", "S", false), Use("b", "T", false)])]
  {
    hide VisitNamed, VisitType, VisitParts, VisitNames, UsesOf, CopiesOf, PropertiesStop, MixinsStop, Closed;
    MixedClosed();
    var w := Walk(PREMARKED, {}, [], []);
    var inM := Entered(w, "M");
    var afterS := Finished(inM, Entered(inM, "S"), "S", EARLY_S);
    var afterT := Finished(afterS, Entered(afterS, "T"), "T", Named("T", [], []));
    EarlyS(inM);
    LateT(afterS);
    TwoProperties(MIXED, inM, TO_S, TO_T, afterS, afterT);
    PropertiesOnly(MIXED, inM, [TO_S, TO_T]);
    MixedNames();
    MixedUses(afterT.beingProcessed);
    StructureVisited(MIXED, w, "M", [], [TO_S, TO_T], afterT);
    var r := VisitNamed(MIXED, w, "M");
    ThreeNames(MIXED, w, r.value, "M", "S", "T");
  }

  lemma ThreeNames(defs: Definitions, w: Walk, after: Walk, a: string, b: string, c: string)
    requires VisitNamed(defs, w, a) == Success(after) && b in after.processed && c in after.processed
    ensures VisitNames(defs, w, [a, b, c]) == Success(after)
  {
    hide VisitNamed;
    var names := [a, b, c];
    ProcessedVisited(defs, after, b);
    ProcessedVisited(defs, after, c);
    NamesStep(defs, w, names, 0);
    NamesStep(defs, after, names, 1);
    NamesStep(defs, after, names, 2);
    NoNames(defs, after);
    assert names[0..] == names && names[3..] == [];
  }
}
