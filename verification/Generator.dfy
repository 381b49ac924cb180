// lspgen/lspgen.cpp: the order in which the generator declares types. A depth-first
// walk over a reference graph that may be cyclic declares what a type refers to
// before the type itself.
module Generator {
  import opened Wrappers
  import opened MetaModel
  import opened TypeNames
  import opened Header

  // ---------------------------------------------------------------- the walk

  // The generator's fields, and the names the walk is inside of.
  datatype Walk = Walk(processed: set<string>, beingProcessed: set<string>, header: seq<Item>, stack: seq<string>)

  function Top(w: Walk): string
    requires w.stack != []
  {
    w.stack[|w.stack| - 1]
  }

  function Entered(w: Walk, name: string): Walk {
    Walk(w.processed + {name}, w.beingProcessed + {name}, w.header, w.stack + [name])
  }

  function Declared(w: Walk, item: Item): Walk { w.(header := w.header + [item]) }

  // How the properties of the mixins are copied, and what keeps them from being so.
  function CopiesOf(defs: Definitions, mixins: seq<TypeExpr>, boxed: set<string>): seq<Copied> {
    if mixins == [] || !IsStructureReference(defs, mixins[0]) then []
    else
      [Copied(mixins[0].name, UsesOf(defs[mixins[0].name].properties, boxed))] + CopiesOf(defs, mixins[1..], boxed)
  }

  function MixinsStop(defs: Definitions, mixins: seq<TypeExpr>): Option<Stop> {
    if mixins == [] then None
    else if !IsStructureReference(defs, mixins[0]) then Some(Throws)
    else if PropertiesStop(defs, defs[mixins[0].name].properties).Some? then
      PropertiesStop(defs, defs[mixins[0].name].properties)
    else MixinsStop(defs, mixins[1..])
  }

  function BasesStop(defs: Definitions, extends_: seq<TypeExpr>): Option<Stop> {
    if forall t | t in extends_ :: IsStructureReference(defs, t) then None else Some(Throws)
  }

  // What keeps a definition from being declared.
  function DeclareStop(defs: Definitions, d: Definition): Option<Stop> {
    match d
    case Enumeration(valueType) => if valueType.Base? then None else Some(Throws)
    case TypeAlias(target) => NameStop(defs, target)
    case Structure(extends_, mixins, properties) =>
      if BasesStop(defs, extends_).Some? then BasesStop(defs, extends_)
      else if MixinsStop(defs, mixins).Some? then MixinsStop(defs, mixins)
      else PropertiesStop(defs, properties)
  }

  function ItemOf(defs: Definitions, name: string, d: Definition, boxed: set<string>): Item {
    Named(name, CopiesOf(defs, Mixins(d), boxed), UsesOf(OwnProperties(d), boxed))
  }

  function DeclaredIf(w: Walk, stop: Option<Stop>, item: Item): Result<Walk, Stop> {
    if stop.Some? then Failure(stop.value) else Success(Declared(w, item))
  }

  // The depth-first walk: what each of the generator's functions makes of its fields.
  ghost function VisitNamed(defs: Definitions, w: Walk, name: string): (r: Result<Walk, Stop>)
    ensures r.Success? ==> w.processed <= r.value.processed
    decreases defs.Keys - w.processed, 0
  {
    if name in w.processed then Success(w)
    else if name !in defs then Failure(Throws)
    else
      var after :- VisitDefinition(defs, Entered(w, name), name);
      Success(Walk(after.processed, after.beingProcessed - {name}, after.header, w.stack))
  }

  ghost function VisitDefinition(defs: Definitions, w: Walk, name: string): (r: Result<Walk, Stop>)
    requires name in defs
    ensures r.Success? ==> w.processed <= r.value.processed
    decreases defs.Keys - w.processed, 3
  {
    var d := defs[name];
    var after :-
      match d
      case Enumeration(_) => Success(w)
      case TypeAlias(target) => VisitType(defs, w, target)
      case Structure(extends_, mixins, properties) => VisitParts(defs, w, extends_, mixins, properties);
    DeclaredIf(after, DeclareStop(defs, d), ItemOf(defs, name, d, after.beingProcessed))
  }

  ghost function VisitParts(defs: Definitions, w: Walk, extends_: seq<TypeExpr>, mixins: seq<TypeExpr>,
                            properties: seq<Property>): (r: Result<Walk, Stop>)
    ensures r.Success? ==> w.processed <= r.value.processed
    decreases defs.Keys - w.processed, 2
  {
    var w1 :- VisitList(defs, w, extends_);
    var w2 :- VisitList(defs, w1, mixins);
    VisitProperties(defs, w2, properties)
  }

  ghost function VisitList(defs: Definitions, w: Walk, types: seq<TypeExpr>): (r: Result<Walk, Stop>)
    ensures r.Success? ==> w.processed <= r.value.processed
    decreases defs.Keys - w.processed, 1, types
  {
    if types == [] then Success(w)
    else
      var w1 :- VisitType(defs, w, types[0]);
      VisitList(defs, w1, types[1..])
  }

  ghost function VisitProperties(defs: Definitions, w: Walk, properties: seq<Property>): (r: Result<Walk, Stop>)
    ensures r.Success? ==> w.processed <= r.value.processed
    decreases defs.Keys - w.processed, 1, properties
  {
    if properties == [] then Success(w)
    else
      var w1 :- VisitType(defs, w, properties[0].typ);
      VisitProperties(defs, w1, properties[1..])
  }

  ghost function VisitType(defs: Definitions, w: Walk, t: TypeExpr): (r: Result<Walk, Stop>)
    ensures r.Success? ==> w.processed <= r.value.processed
    decreases defs.Keys - w.processed, 1, t
  {
    match t
    case Reference(name) => VisitNamed(defs, w, name)
    case ArrayType(element) => VisitType(defs, w, element)
    case MapType(key, value) =>
      var w1 :- VisitType(defs, w, key);
      VisitType(defs, w1, value)
    case And(items) => VisitList(defs, w, items)
    case Or(items) => VisitList(defs, w, items)
    case Tuple(items) => VisitList(defs, w, items)
    case StructureLiteral(properties) =>
      var after :- VisitProperties(defs, w, properties);
      var item := Anonymous(properties, UsesOf(properties, after.beingProcessed));
      DeclaredIf(after, PropertiesStop(defs, properties), item)
    case _ => Success(w)
  }

  ghost function VisitNames(defs: Definitions, w: Walk, names: seq<string>): (r: Result<Walk, Stop>)
    decreases |names|
  {
    if names == [] then Success(w)
    else
      var w1 :- VisitNamed(defs, w, names[0]);
      VisitNames(defs, w1, names[1..])
  }

  ghost function Generated(defs: Definitions, typeNames: seq<string>): Result<Walk, Stop> {
    VisitNames(defs, Walk(PREMARKED, {}, [], []), typeNames)
  }

  // ---------------------------------------------------------------- the generator

  // A method did what the function says.
  ghost predicate Follows(stop: Option<Stop>, now: Walk, r: Result<Walk, Stop>) {
    match r
    case Success(w) => stop == None && now == w
    case Failure(s) => stop == Some(s)
  }

  class CppGenerator {
    const defs: Definitions
    const typeNames: seq<string>
    var processedTypes: set<string>
    var typesBeingProcessed: set<string>
    var header: seq<Item>
    ghost var stack: seq<string>

    ghost function Now(): Walk
      reads this
    {
      Walk(processedTypes, typesBeingProcessed, header, stack)
    }

    // The meta model lists each defined name.
    constructor (defs: Definitions, typeNames: seq<string>)
      requires forall a :: a in typeNames <==> a in defs
      ensures this.defs == defs && this.typeNames == typeNames && header == []
    {
      this.defs, this.typeNames := defs, typeNames;
      processedTypes, typesBeingProcessed, header, stack := {}, {}, [], [];
    }

    method GenerateTypes() returns (stop: Option<Stop>)
      requires header == [] && forall a :: a in typeNames <==> a in defs
      modifies this
      ensures Follows(stop, Now(), Generated(defs, typeNames))
      ensures stop.None? <==> SoundModel(defs)
      ensures stop.None? ==>
        && Inv(defs, Now()) && stack == []
        && GoodHeader(defs, header) && NamesOf(header) == defs.Keys - PREMARKED
    {
      hide VisitNames, Inv, SoundModel, GoodHeader, NamesOf;
      GeneratedHeader(defs, typeNames);
      processedTypes := PREMARKED;
      typesBeingProcessed := {};
      stack := [];
      assert typeNames[0..] == typeNames;
      for i := 0 to |typeNames|
        invariant VisitNames(defs, Now(), typeNames[i..]) == Generated(defs, typeNames)
      {
        NamesStep(defs, Now(), typeNames, i);
        stop := GenerateNamedType(typeNames[i]);
        if stop.Some? { return; }
      }
      NoNames(defs, Now());
      assert typeNames[|typeNames|..] == [];
      stop := None;
    }

    method GenerateNamedType(name: string) returns (stop: Option<Stop>)
      modifies this
      ensures Follows(stop, Now(), VisitNamed(defs, old(Now()), name))
      decreases defs.Keys - processedTypes, 0
    {
      hide VisitDefinition;
      if name in processedTypes {
        return None;
      }
      processedTypes := processedTypes + {name};
      if name !in defs {
        return Some(Throws);
      }
      typesBeingProcessed := typesBeingProcessed + {name};
      stack := stack + [name];
      stop := Generate(name, defs[name]);
      if stop.Some? { return; }
      typesBeingProcessed := typesBeingProcessed - {name};
      stack := old(stack);
    }

    // Declares the type that has just been entered.
    method Generate(name: string, definition: Definition) returns (stop: Option<Stop>)
      requires name in defs && definition == defs[name]
      modifies this
      ensures Follows(stop, Now(), VisitDefinition(defs, old(Now()), name))
      decreases defs.Keys - processedTypes, 3
    {
      hide VisitType, VisitParts, BasesStop, MixinsStop, PropertiesStop, NameStop, UsesOf, CopiesOf;
      match definition {
        case Enumeration(valueType) =>
          NothingCopied(defs, typesBeingProcessed);
          if !valueType.Base? { return Some(Throws); }
          header := header + [Named(name, [], [])];
        case Structure(extends_, mixins, properties) =>
          stop := GenerateStructure(name, extends_, mixins, properties);
          return;
        case TypeAlias(target) =>
          stop := GenerateType(target);
          if stop.Some? { return; }
          NothingCopied(defs, typesBeingProcessed);
          stop := CppTypeName(defs, target);
          if stop.Some? { return; }
          header := header + [Named(name, [], [])];
      }
      stop := None;
    }

    method GenerateStructure(name: string, extends_: seq<TypeExpr>, mixins: seq<TypeExpr>, properties: seq<Property>)
      returns (stop: Option<Stop>)
      requires name in defs && defs[name] == Structure(extends_, mixins, properties)
      modifies this
      ensures Follows(stop, Now(), VisitDefinition(defs, old(Now()), name))
      decreases defs.Keys - processedTypes, 2
    {
      hide VisitList, VisitProperties, VisitType, BasesStop, MixinsStop, PropertiesStop, UsesOf, CopiesOf;
      stop := GenerateTypeList(extends_);
      if stop.Some? { return; }
      stop := GenerateTypeList(mixins);
      if stop.Some? { return; }
      stop := GenerateProperties(properties);
      if stop.Some? { return; }
      stop := CheckBases(extends_);
      if stop.Some? { return; }
      var copied;
      stop, copied := CopyMixins(mixins);
      if stop.Some? { return; }
      var own;
      stop, own := UsesInProperties(properties);
      if stop.Some? { return; }
      header := header + [Named(name, copied, own)];
    }

    method CheckBases(extends_: seq<TypeExpr>) returns (stop: Option<Stop>)
      ensures stop == BasesStop(defs, extends_)
    {
      for i := 0 to |extends_|
        invariant forall t | t in extends_[..i] :: IsStructureReference(defs, t)
      {
        assert extends_[i] in extends_;
        if !IsStructureReference(defs, extends_[i]) { return Some(Throws); }
        assert extends_[..i + 1] == extends_[..i] + [extends_[i]];
      }
      assert extends_[..|extends_|] == extends_;
      stop := None;
    }

    method CopyMixins(mixins: seq<TypeExpr>) returns (stop: Option<Stop>, copied: seq<Copied>)
      ensures stop == MixinsStop(defs, mixins)
      ensures stop.None? ==> copied == CopiesOf(defs, mixins, typesBeingProcessed)
    {
      hide UsesOf, PropertiesStop;
      copied := [];
      assert mixins[0..] == mixins;
      for i := 0 to |mixins|
        invariant MixinsStop(defs, mixins[i..]) == MixinsStop(defs, mixins)
        invariant copied + CopiesOf(defs, mixins[i..], typesBeingProcessed) ==
          CopiesOf(defs, mixins, typesBeingProcessed)
      {
        assert mixins[i..][1..] == mixins[i + 1..];
        if !IsStructureReference(defs, mixins[i]) {
          return Some(Throws), copied;
        }
        var uses;
        stop, uses := UsesInProperties(defs[mixins[i].name].properties);
        if stop.Some? { return; }
        copied := copied + [Copied(mixins[i].name, uses)];
      }
      assert mixins[|mixins|..] == [];
      stop := None;
    }

    // The part of generateStructureProperties that names the types.
    method UsesInProperties(properties: seq<Property>) returns (stop: Option<Stop>, uses: seq<Use>)
      ensures stop == PropertiesStop(defs, properties)
      ensures stop.None? ==> uses == UsesOf(properties, typesBeingProcessed)
    {
      hide NameStop;
      uses := [];
      assert properties[0..] == properties;
      for i := 0 to |properties|
        invariant PropertiesStop(defs, properties[i..]) == PropertiesStop(defs, properties)
        invariant uses + UsesOf(properties[i..], typesBeingProcessed) == UsesOf(properties, typesBeingProcessed)
      {
        var p := properties[i];
        assert properties[i..][1..] == properties[i + 1..];
        stop := CppTypeName(defs, p.typ);
        if stop.Some? { return; }
        if p.isOptional && p.typ.Reference? {
          uses := uses + [Use(p.name, p.typ.name, p.typ.name in typesBeingProcessed)];
        }
      }
      assert properties[|properties|..] == [];
      stop := None;
    }

    method GenerateTypeList(types: seq<TypeExpr>) returns (stop: Option<Stop>)
      modifies this
      ensures Follows(stop, Now(), VisitList(defs, old(Now()), types))
      decreases defs.Keys - processedTypes, 1, types
    {
      hide VisitList, VisitType;
      ghost var before := Now();
      assert types[0..] == types;
      for i := 0 to |types|
        invariant VisitList(defs, Now(), types[i..]) == VisitList(defs, before, types)
        invariant before.processed <= processedTypes
      {
        ListStep(defs, Now(), types, i);
        stop := GenerateType(types[i]);
        if stop.Some? { return; }
      }
      NoTypes(defs, Now());
      assert types[|types|..] == [];
      stop := None;
    }

    method GenerateProperties(properties: seq<Property>) returns (stop: Option<Stop>)
      modifies this
      ensures Follows(stop, Now(), VisitProperties(defs, old(Now()), properties))
      decreases defs.Keys - processedTypes, 1, properties
    {
      hide VisitProperties, VisitType;
      ghost var before := Now();
      assert properties[0..] == properties;
      for i := 0 to |properties|
        invariant VisitProperties(defs, Now(), properties[i..]) == VisitProperties(defs, before, properties)
        invariant before.processed <= processedTypes
      {
        PropertyStep(defs, Now(), properties, i);
        stop := GenerateType(properties[i].typ);
        if stop.Some? { return; }
      }
      NoTypes(defs, Now());
      assert properties[|properties|..] == [];
      stop := None;
    }

    method GenerateType(t: TypeExpr) returns (stop: Option<Stop>)
      modifies this
      ensures Follows(stop, Now(), VisitType(defs, old(Now()), t))
      decreases defs.Keys - processedTypes, 1, t
    {
      hide VisitNamed, VisitList, VisitProperties, PropertiesStop, UsesOf;
      match t {
        case Reference(name) =>
          stop := GenerateNamedType(name);
        case ArrayType(element) =>
          stop := GenerateType(element);
        case MapType(key, value) =>
          stop := GenerateType(key);
          if stop.Some? { return; }
          stop := GenerateType(value);
        case And(items) =>
          stop := GenerateTypeList(items);
        case Or(items) =>
          stop := GenerateTypeList(items);
        case Tuple(items) =>
          stop := GenerateTypeList(items);
        case StructureLiteral(properties) =>
          stop := GenerateProperties(properties);
          if stop.Some? { return; }
          var own;
          stop, own := UsesInProperties(properties);
          if stop.Some? { return; }
          header := header + [Anonymous(properties, own)];
        case Base(_) =>
          stop := None;
        case Literal =>
          stop := None;
      }
    }
  }

  // ---- how the walk unfolds

  lemma NamesStep(defs: Definitions, w: Walk, names: seq<string>, i: nat)
    requires i < |names|
    ensures var r := VisitNamed(defs, w, names[i]);
      VisitNames(defs, w, names[i..]) ==
        if r.Failure? then Failure(r.error) else VisitNames(defs, r.value, names[i + 1..])
  {
    hide VisitNamed;
    assert names[i..][1..] == names[i + 1..];
  }

  lemma NoNames(defs: Definitions, w: Walk)
    ensures VisitNames(defs, w, []) == Success(w)
  {
  }

  lemma ListStep(defs: Definitions, w: Walk, types: seq<TypeExpr>, i: nat)
    requires i < |types|
    ensures var r := VisitType(defs, w, types[i]);
      VisitList(defs, w, types[i..]) ==
        if r.Failure? then Failure(r.error) else VisitList(defs, r.value, types[i + 1..])
  {
    hide VisitType;
    assert types[i..][1..] == types[i + 1..];
  }

  lemma PropertyStep(defs: Definitions, w: Walk, properties: seq<Property>, i: nat)
    requires i < |properties|
    ensures var r := VisitType(defs, w, properties[i].typ);
      VisitProperties(defs, w, properties[i..]) ==
        if r.Failure? then Failure(r.error) else VisitProperties(defs, r.value, properties[i + 1..])
  {
    hide VisitType;
    assert properties[i..][1..] == properties[i + 1..];
  }

  lemma NoTypes(defs: Definitions, w: Walk)
    ensures VisitList(defs, w, []) == Success(w) && VisitProperties(defs, w, []) == Success(w)
  {
  }

  lemma NothingCopied(defs: Definitions, boxed: set<string>)
    ensures CopiesOf(defs, [], boxed) == [] && UsesOf([], boxed) == []
  {
  }

  // ---------------------------------------------------------------- what the walk keeps

  ghost predicate OnStack(defs: Definitions, stack: seq<string>, names: set<string>) {
    && (forall a :: a in names <==> a in stack)
    && (forall i, j | 0 <= i < j < |stack| :: stack[i] != stack[j])
    && (forall a | a in stack :: a in defs)
    && (stack != [] ==> IsPath(defs, stack))
  }

  // The stack is a path of references, the types being processed are the ones on
  // it, and what is processed is either on it or declared.
  ghost predicate Inv(defs: Definitions, w: Walk) {
    && OnStack(defs, w.stack, w.beingProcessed)
    && w.processed == PREMARKED + NamesOf(w.header) + w.beingProcessed
    && w.beingProcessed !! PREMARKED + NamesOf(w.header)
    && NamesOf(w.header) <= defs.Keys
    && NamesOf(w.header) !! PREMARKED
    && GoodHeader(defs, w.header)
    && (forall l | l in LiteralsOf(w.header) :: AllNamed(defs, l))
    && forall a | a in NamesOf(w.header) :: Settled(defs, w, a)
  }

  // What stays true of a declared type.
  ghost predicate Settled(defs: Definitions, w: Walk, a: string)
    requires a in defs
  {
    && DefinitionRefs(defs[a]) <= w.processed && Declarable(defs, defs[a])
    && DefinitionLiterals(defs[a]) <= LiteralsOf(w.header)
  }

  // A nested call may only ask for what the type being processed refers to.
  ghost predicate Ready(defs: Definitions, w: Walk, refs: set<string>, literals: set<seq<Property>>) {
    && Inv(defs, w)
    && (w.stack == [] ==> refs <= defs.Keys && literals == {})
    && (w.stack != [] ==>
          Top(w) in defs && refs <= DefinitionRefs(defs[Top(w)]) && literals <= DefinitionLiterals(defs[Top(w)]))
  }

  ghost predicate Done(defs: Definitions, before: Walk, after: Walk, refs: set<string>, literals: set<seq<Property>>) {
    && Inv(defs, after) && after.stack == before.stack
    && before.processed <= after.processed
    && LiteralsOf(before.header) <= LiteralsOf(after.header)
    && refs <= after.processed && literals <= LiteralsOf(after.header)
  }

  lemma NothingDone(defs: Definitions, w: Walk, refs: set<string>)
    requires Inv(defs, w) && refs <= w.processed
    ensures Done(defs, w, w, refs, {})
  {
    hide Inv, LiteralsOf;
  }

  lemma DoneBoth(defs: Definitions, w0: Walk, w1: Walk, w2: Walk,
                 r1: set<string>, l1: set<seq<Property>>, r2: set<string>, l2: set<seq<Property>>)
    requires Done(defs, w0, w1, r1, l1) && Done(defs, w1, w2, r2, l2)
    ensures Done(defs, w0, w2, r1 + r2, l1 + l2)
  {
    hide Inv, LiteralsOf;
  }

  lemma ReadyAgain(defs: Definitions, w0: Walk, w1: Walk, refs: set<string>, literals: set<seq<Property>>,
                   r: set<string>, l: set<seq<Property>>)
    requires Ready(defs, w0, refs, literals) && Done(defs, w0, w1, r, l)
    ensures Ready(defs, w1, refs, literals)
  {
    hide Inv, LiteralsOf, DefinitionRefs, DefinitionLiterals;
  }

  lemma ReadyPart(defs: Definitions, w: Walk, refs: set<string>, literals: set<seq<Property>>,
                  r: set<string>, l: set<seq<Property>>)
    requires Ready(defs, w, refs, literals) && r <= refs && l <= literals
    ensures Ready(defs, w, r, l)
  {
    hide Inv, DefinitionRefs, DefinitionLiterals;
  }

  lemma Started(defs: Definitions)
    ensures Inv(defs, Walk(PREMARKED, {}, [], []))
  {
  }

  lemma {:induction false} ListPart(items: seq<TypeExpr>, i: nat)
    requires i < |items|
    ensures Refs(items[i]) <= ListRefs(items) && Literals(items[i]) <= ListLiterals(items)
  {
    hide Refs, Literals;
    if i > 0 { ListPart(items[1..], i - 1); }
  }

  // ---- entering and leaving a type

  lemma NotDefined(defs: Definitions, w: Walk, name: string)
    requires Ready(defs, w, {name}, {}) && name !in w.processed && name !in defs
    ensures !SoundModel(defs)
  {
    hide IsPath, NamesOf, GoodHeader, DefinitionRefs, Declarable;
    assert name in {name};
    assert Top(w) in w.beingProcessed;
    assert !SoundType(defs, Top(w));
  }

  lemma Enter(defs: Definitions, w: Walk, name: string)
    requires Ready(defs, w, {name}, {}) && name !in w.processed && name in defs
    ensures Inv(defs, Entered(w, name))
    ensures Ready(defs, Entered(w, name), DefinitionRefs(defs[name]), DefinitionLiterals(defs[name]))
  {
    hide NamesOf, GoodHeader, DefinitionRefs, Declarable;
    var s := w.stack + [name];
    if w.stack != [] {
      assert name in {name};
      forall i | 0 <= i < |s| - 1 ensures s[i] in defs && s[i + 1] in DefinitionRefs(defs[s[i]]) {
        if i == |w.stack| - 1 { assert s[i] == Top(w); }
      }
    }
  }

  function Left(w: Walk): Walk
    requires w.stack != []
  {
    Walk(w.processed, w.beingProcessed - {Top(w)}, w.header, w.stack[..|w.stack| - 1])
  }

  lemma Leave(defs: Definitions, w: Walk, entered: Walk, name: string, after: Walk)
    requires Inv(defs, w) && entered == Entered(w, name)
    requires after.stack == entered.stack && entered.processed <= after.processed
    requires LiteralsOf(entered.header) <= LiteralsOf(after.header) && Inv(defs, Left(after))
    ensures Done(defs, w, Left(after), {name}, {})
  {
    hide Inv, LiteralsOf;
    assert (w.stack + [name])[..|w.stack|] == w.stack;
  }

  lemma TopReaches(defs: Definitions, w: Walk, b: string)
    requires Inv(defs, w) && w.stack != [] && b in w.beingProcessed
    ensures Reaches(defs, b, Top(w))
  {
    hide NamesOf, GoodHeader, DefinitionRefs, Declarable;
    var i :| 0 <= i < |w.stack| && w.stack[i] == b;
    var p := w.stack[i..];
    assert IsPath(defs, p) && p[0] == b && p[|p| - 1] == Top(w);
  }

  lemma {:induction false} UsesAgree(properties: seq<Property>, x: set<string>, y: set<string>)
    requires forall b | b in PropertyRefs(properties) :: b in x <==> b in y
    ensures UsesOf(properties, x) == UsesOf(properties, y)
  {
    if properties != [] {
      var t := properties[0].typ;
      assert t.Reference? ==> Refs(t) == {t.name};
      assert forall b | b in Refs(t) :: b in PropertyRefs(properties);
      assert forall b | b in PropertyRefs(properties[1..]) :: b in PropertyRefs(properties);
      UsesAgree(properties[1..], x, y);
    }
  }

  // What is processed and not complete is exactly what is being processed.
  lemma BoxedAreIncomplete(defs: Definitions, w: Walk, properties: seq<Property>)
    requires Inv(defs, w) && PropertyRefs(properties) <= w.processed
    ensures UsesOf(properties, w.beingProcessed) == UsesOf(properties, Incomplete(w.header, PropertyRefs(properties)))
  {
    hide NamesOf, GoodHeader, DefinitionRefs, Declarable, OnStack, PropertyRefs;
    UsesAgree(properties, w.beingProcessed, Incomplete(w.header, PropertyRefs(properties)));
  }

  lemma NamesSnoc(items: seq<Item>, item: Item)
    ensures NamesOf(items + [item]) == NamesOf(items) + (if item.Named? then {item.name} else {})
    ensures LiteralsOf(items + [item]) == LiteralsOf(items) + (if item.Anonymous? then {item.properties} else {})
  {
    var all := items + [item];
    assert all[..|all| - 1] == items;
  }

  lemma GoodSnoc(defs: Definitions, items: seq<Item>, item: Item)
    requires GoodHeader(defs, items) && GoodItem(defs, items, item)
    ensures GoodHeader(defs, items + [item])
  {
    hide GoodItem;
    var all := items + [item];
    forall i | 0 <= i < |all| ensures GoodItem(defs, all[..i], all[i]) {
      if i < |items| { assert all[..i] == items[..i]; } else { assert all[..i] == items; }
    }
  }

  // The uses as the generator writes them: boxed while being processed.
  ghost predicate Written(defs: Definitions, w: Walk, d: Definition, item: Item)
    requires item.Named?
  {
    && item.own == UsesOf(OwnProperties(d), w.beingProcessed)
    && |item.copied| == |Mixins(d)|
    && forall i | 0 <= i < |item.copied| :: CopiedAsIs(defs, w, item.copied[i], Mixins(d)[i])
  }

  ghost predicate CopiedAsIs(defs: Definitions, w: Walk, copy: Copied, mixin: TypeExpr) {
    && mixin == Reference(copy.mixin) && copy.mixin in defs
    && copy.uses == UsesOf(OwnProperties(defs[copy.mixin]), w.beingProcessed)
  }

  lemma MixinRefs(d: Definition, i: nat)
    requires i < |Mixins(d)| && Mixins(d)[i].Reference?
    ensures Mixins(d)[i].name in DefinitionRefs(d)
  {
    ListPart(Mixins(d), i);
  }

  lemma CopyIsGood(defs: Definitions, w: Walk, d: Definition, i: nat, copy: Copied)
    requires Inv(defs, w) && w.stack != [] && DefinitionRefs(d) <= w.processed
    requires i < |Mixins(d)| && CopiedAsIs(defs, w, copy, Mixins(d)[i])
    ensures GoodCopy(defs, w.header, Top(w), copy, Mixins(d)[i])
  {
    hide NamesOf, GoodHeader, DefinitionRefs, Declarable, OnStack, PropertyRefs, UsesOf, Reaches, Incomplete, Mixins,
         UsesListed;
    MixinRefs(d, i);
    var m := copy.mixin;
    UsesPlaces(OwnProperties(defs[m]), w.beingProcessed);
    if m in w.beingProcessed {
      TopReaches(defs, w, m);
    } else if m !in PREMARKED {
      var properties := OwnProperties(defs[m]);
      OwnRefs(defs[m]);
      BoxedAreIncomplete(defs, w, properties);
      forall b | b in Incomplete(w.header, PropertyRefs(properties)) ensures Reaches(defs, b, Top(w)) {
        IncompleteIs(w.header, PropertyRefs(properties), b);
        TopReaches(defs, w, b);
      }
    }
  }

  lemma NamedIsGood(defs: Definitions, w: Walk, item: Item)
    requires Inv(defs, w) && w.stack != [] && item.Named? && item.name == Top(w) && Top(w) in defs
    requires DefinitionRefs(defs[Top(w)]) <= w.processed
    requires DefinitionLiterals(defs[Top(w)]) <= LiteralsOf(w.header)
    requires Written(defs, w, defs[Top(w)], item)
    ensures GoodItem(defs, w.header, item)
  {
    hide NamesOf, GoodHeader, DefinitionRefs, Declarable, PropertyRefs, UsesOf, Reaches, IsPath, Mixins, OwnProperties,
         LiteralsOf, DefinitionLiterals, GoodCopy, CopiedAsIs;
    var d := defs[Top(w)];
    assert Top(w) in w.beingProcessed;
    forall b | b in Incomplete(w.header, DefinitionRefs(d)) ensures Reaches(defs, b, Top(w)) { TopReaches(defs, w, b); }
    OwnRefs(d);
    BoxedAreIncomplete(defs, w, OwnProperties(d));
    forall i | 0 <= i < |item.copied| ensures GoodCopy(defs, w.header, Top(w), item.copied[i], Mixins(d)[i]) {
      CopyIsGood(defs, w, d, i, item.copied[i]);
    }
  }

  // Declaring the type on top of the stack.
  lemma DeclareNamed(defs: Definitions, w: Walk, item: Item)
    requires Inv(defs, w) && w.stack != [] && item.Named? && item.name == Top(w) && Top(w) in defs
    requires DefinitionRefs(defs[Top(w)]) <= w.processed
    requires DefinitionLiterals(defs[Top(w)]) <= LiteralsOf(w.header)
    requires Written(defs, w, defs[Top(w)], item) && Declarable(defs, defs[Top(w)])
    ensures Inv(defs, Left(w.(header := w.header + [item])))
    ensures LiteralsOf(w.header) <= LiteralsOf(w.header + [item])
  {
    hide NamesOf, GoodHeader, DefinitionRefs, DefinitionLiterals, Declarable, LiteralsOf, GoodItem, Written, OnStack;
    NamesSnoc(w.header, item);
    NamedIsGood(defs, w, item);
    GoodSnoc(defs, w.header, item);
    PopStack(defs, w.stack, w.beingProcessed);
  }

  lemma PopStack(defs: Definitions, stack: seq<string>, names: set<string>)
    requires OnStack(defs, stack, names) && stack != []
    ensures OnStack(defs, stack[..|stack| - 1], names - {stack[|stack| - 1]}) && stack[|stack| - 1] in names
  {
    hide DefinitionRefs;
    var rest := stack[..|stack| - 1];
    if rest != [] { assert IsPath(defs, rest); }
    forall a ensures a in names - {stack[|stack| - 1]} <==> a in rest {
      if a in stack {
        var i :| 0 <= i < |stack| && stack[i] == a;
        if i < |stack| - 1 { assert rest[i] == a; }
      }
    }
  }

  lemma DeclareAnonymous(defs: Definitions, w: Walk, item: Item)
    requires Inv(defs, w) && item.Anonymous?
    requires PropertyRefs(item.properties) <= w.processed && PropertyLiterals(item.properties) <= LiteralsOf(w.header)
    requires item.own == UsesOf(item.properties, w.beingProcessed) && AllNamed(defs, item.properties)
    ensures Done(defs, w, w.(header := w.header + [item]), PropertyRefs(item.properties),
                 PropertyLiterals(item.properties) + {item.properties})
  {
    hide NamesOf, GoodHeader, DefinitionRefs, Declarable, LiteralsOf, OnStack, PropertyRefs, PropertyLiterals, UsesOf,
         Incomplete;
    NamesSnoc(w.header, item);
    BoxedAreIncomplete(defs, w, item.properties);
    GoodSnoc(defs, w.header, item);
  }

  lemma AllDeclared(defs: Definitions, w: Walk)
    requires Inv(defs, w) && w.stack == [] && forall a | a in defs :: a in w.processed
    ensures SoundModel(defs) && NamesOf(w.header) == defs.Keys - PREMARKED
  {
    hide NamesOf, GoodHeader, DefinitionRefs, Declarable, IsPath;
    assert w.beingProcessed == {};
  }

  // ---- facts for the steps of the walk

  lemma Asked(defs: Definitions, w: Walk, name: string)
    requires Inv(defs, w) && w.stack == [] && name in defs
    ensures Ready(defs, w, {name}, {})
  {
    hide Inv;
  }

  lemma ReadyGives(defs: Definitions, w: Walk, refs: set<string>, literals: set<seq<Property>>)
    requires Ready(defs, w, refs, literals)
    ensures Inv(defs, w)
    ensures w.stack != [] ==> Top(w) in defs
    ensures forall name | name in w.processed :: {name} <= w.processed
  {
    hide Inv, DefinitionRefs;
  }

  lemma DoneGives(defs: Definitions, before: Walk, after: Walk, refs: set<string>, literals: set<seq<Property>>)
    requires Done(defs, before, after, refs, literals)
    ensures Inv(defs, after) && after.stack == before.stack && before.processed <= after.processed
    ensures LiteralsOf(before.header) <= LiteralsOf(after.header)
    ensures refs <= after.processed && literals <= LiteralsOf(after.header)
  {
    hide Inv, LiteralsOf;
  }

  lemma DoneParts(defs: Definitions, before: Walk, after: Walk, refs: set<string>, literals: set<seq<Property>>,
                  properties: seq<Property>)
    requires Done(defs, before, after, refs + refs, literals + (literals + {properties}))
    ensures Done(defs, before, after, refs, literals + {properties})
  {
    hide Inv, LiteralsOf;
  }

  lemma TopSound(defs: Definitions, w: Walk)
    requires Inv(defs, w) && w.stack != []
    ensures Top(w) in defs && (!Declarable(defs, defs[Top(w)]) ==> !SoundModel(defs))
  {
    hide NamesOf, GoodHeader, DefinitionRefs, Declarable, IsPath;
    assert Top(w) in w.beingProcessed;
    assert !Declarable(defs, defs[Top(w)]) ==> !SoundType(defs, Top(w));
  }

  lemma LiteralSound(defs: Definitions, w: Walk, refs: set<string>, literals: set<seq<Property>>, l: seq<Property>)
    requires Ready(defs, w, refs, literals) && l in literals
    ensures !AllNamed(defs, l) ==> !SoundModel(defs)
  {
    hide NamesOf, LiteralsOf, GoodHeader, DefinitionRefs, DefinitionLiterals, Declarable, IsPath, AllNamed;
    assert Top(w) in w.beingProcessed;
    assert !AllNamed(defs, l) ==> !SoundType(defs, Top(w));
  }

  lemma DefinitionParts(defs: Definitions, d: Definition)
    ensures d.Enumeration? ==>
      DefinitionRefs(d) == {} && DefinitionLiterals(d) == {} && (Declarable(defs, d) <==> d.valueType.Base?)
    ensures d.TypeAlias? ==>
      && DefinitionRefs(d) == Refs(d.target) && DefinitionLiterals(d) == Literals(d.target)
      && (Declarable(defs, d) <==> Nameable(defs, d.target))
    ensures d.Structure? ==>
      && DefinitionRefs(d) == ListRefs(d.extends_) + ListRefs(d.mixins) + PropertyRefs(d.properties)
      && DefinitionLiterals(d) == ListLiterals(d.extends_) + ListLiterals(d.mixins) + PropertyLiterals(d.properties)
      && (Declarable(defs, d) <==>
            && (forall t | t in d.extends_ :: IsStructureReference(defs, t))
            && (forall t | t in d.mixins :: IsMixin(defs, t))
            && AllNamed(defs, d.properties))
  {
    hide AllNamed, IsMixin, Nameable, Refs, ListRefs, PropertyRefs, Literals, ListLiterals, PropertyLiterals,
         IsStructureReference;
  }

  lemma TypeParts(t: TypeExpr)
    ensures t.Reference? ==> Refs(t) == {t.name} && Literals(t) == {}
    ensures t.ArrayType? ==> Refs(t) == Refs(t.element) && Literals(t) == Literals(t.element)
    ensures t.MapType? ==> Refs(t) == Refs(t.key) + Refs(t.value) && Literals(t) == Literals(t.key) + Literals(t.value)
    ensures t.And? || t.Or? || t.Tuple? ==> Refs(t) == ListRefs(t.items) && Literals(t) == ListLiterals(t.items)
    ensures t.StructureLiteral? ==>
      Refs(t) == PropertyRefs(t.properties) && Literals(t) == PropertyLiterals(t.properties) + {t.properties}
    ensures t.Base? || t.Literal? ==> Refs(t) == {} && Literals(t) == {}
  {
  }

  lemma InTail(mixins: seq<TypeExpr>, t: TypeExpr)
    requires mixins != []
    ensures t in mixins <==> t == mixins[0] || t in mixins[1..]
  {
    assert mixins == [mixins[0]] + mixins[1..];
  }

  lemma {:induction false} MixinsStopIs(defs: Definitions, mixins: seq<TypeExpr>)
    ensures MixinsStop(defs, mixins).None? <==> forall t | t in mixins :: IsMixin(defs, t)
  {
    hide PropertiesStop;
    if mixins != [] {
      MixinsStopIs(defs, mixins[1..]);
      assert mixins[0] in mixins;
      forall t ensures t in mixins <==> t == mixins[0] || t in mixins[1..] { InTail(mixins, t); }
    }
  }

  lemma {:induction false} CopiesAre(defs: Definitions, mixins: seq<TypeExpr>, boxed: set<string>)
    requires forall t | t in mixins :: IsMixin(defs, t)
    ensures var copied := CopiesOf(defs, mixins, boxed);
      && |copied| == |mixins|
      && forall i | 0 <= i < |mixins| ::
           && mixins[i] == Reference(copied[i].mixin) && copied[i].mixin in defs
           && copied[i].uses == UsesOf(OwnProperties(defs[copied[i].mixin]), boxed)
  {
    hide PropertiesStop, UsesOf;
    if mixins != [] {
      assert mixins[0] in mixins && forall t | t in mixins[1..] :: t in mixins;
      CopiesAre(defs, mixins[1..], boxed);
    }
  }

  lemma DeclareStopIs(defs: Definitions, d: Definition)
    ensures DeclareStop(defs, d).None? <==> Declarable(defs, d)
  {
    hide PropertiesStop, MixinsStop, NameStop, IsMixin;
    if d.Structure? { MixinsStopIs(defs, d.mixins); }
  }

  lemma ItemIsWritten(defs: Definitions, w: Walk, name: string, d: Definition)
    requires Declarable(defs, d)
    ensures Written(defs, w, d, ItemOf(defs, name, d, w.beingProcessed))
  {
    hide PropertiesStop, UsesOf, CopiesOf, NameStop, IsMixin;
    if d.Structure? {
      CopiesAre(defs, d.mixins, w.beingProcessed);
    } else {
      NothingCopied(defs, w.beingProcessed);
    }
  }

  // ---------------------------------------------------------------- what the walk gives

  // A successful visit has processed what it was asked for; a failed one shows
  // that the model is not sound.
  ghost predicate Visited(defs: Definitions, w: Walk, r: Result<Walk, Stop>, refs: set<string>,
                          literals: set<seq<Property>>) {
    match r
    case Success(after) => Done(defs, w, after, refs, literals)
    case Failure(_) => !SoundModel(defs)
  }

  lemma {:induction false} NamedVisited(defs: Definitions, w: Walk, name: string)
    requires Ready(defs, w, {name}, {})
    ensures Visited(defs, w, VisitNamed(defs, w, name), {name}, {})
    decreases defs.Keys - w.processed, 0
  {
    hide Inv, Ready, Done, SoundModel, DefinitionRefs, DefinitionLiterals, Declarable, VisitDefinition, LiteralsOf;
    ReadyGives(defs, w, {name}, {});
    if name in w.processed {
      NothingDone(defs, w, {name});
    } else if name !in defs {
      NotDefined(defs, w, name);
    } else {
      var entered := Entered(w, name);
      Enter(defs, w, name);
      DefinitionVisited(defs, entered, name);
      var r := VisitDefinition(defs, entered, name);
      if r.Success? {
        assert (w.stack + [name])[..|w.stack|] == w.stack;
        Leave(defs, w, entered, name, r.value);
      }
    }
  }

  lemma {:induction false} DefinitionVisited(defs: Definitions, w: Walk, name: string)
    requires w.stack != [] && name == Top(w) && name in defs
    requires Ready(defs, w, DefinitionRefs(defs[name]), DefinitionLiterals(defs[name]))
    ensures var r := VisitDefinition(defs, w, name);
      if r.Failure? then !SoundModel(defs)
      else
        && r.value.stack == w.stack && w.processed <= r.value.processed
        && LiteralsOf(w.header) <= LiteralsOf(r.value.header) && Inv(defs, Left(r.value))
    decreases defs.Keys - w.processed, 3
  {
    hide Inv, Ready, Done, SoundModel, DefinitionRefs, DefinitionLiterals, Declarable, LiteralsOf,
         VisitType, VisitParts, DeclareStop, ItemOf, Refs, ListRefs, PropertyRefs, Literals, ListLiterals,
         PropertyLiterals;
    var d := defs[name];
    ReadyGives(defs, w, DefinitionRefs(d), DefinitionLiterals(d));
    TopSound(defs, w);
    DefinitionParts(defs, d);
    DeclareStopIs(defs, d);
    match d {
      case Enumeration(_) =>
        NothingDone(defs, w, {});
        DefinitionDone(defs, w, w, name);
      case TypeAlias(target) =>
        TypeVisited(defs, w, target);
        var r := VisitType(defs, w, target);
        if r.Success? { DefinitionDone(defs, w, r.value, name); }
      case Structure(extends_, mixins, properties) =>
        PartsVisited(defs, w, extends_, mixins, properties);
        var r := VisitParts(defs, w, extends_, mixins, properties);
        if r.Success? { DefinitionDone(defs, w, r.value, name); }
    }
  }

  // The declaration itself.
  lemma DefinitionDone(defs: Definitions, w: Walk, after: Walk, name: string)
    requires w.stack != [] && name == Top(w) && name in defs
    requires Done(defs, w, after, DefinitionRefs(defs[name]), DefinitionLiterals(defs[name]))
    ensures after.stack == w.stack && w.processed <= after.processed
    ensures Declarable(defs, defs[name]) ==>
      var item := ItemOf(defs, name, defs[name], after.beingProcessed);
      LiteralsOf(w.header) <= LiteralsOf(Declared(after, item).header) && Inv(defs, Left(Declared(after, item)))
  {
    hide Inv, Done, DefinitionRefs, DefinitionLiterals, Declarable, LiteralsOf, CopiesOf, UsesOf, Written;
    var d, item := defs[name], ItemOf(defs, name, defs[name], after.beingProcessed);
    DoneGives(defs, w, after, DefinitionRefs(d), DefinitionLiterals(d));
    if Declarable(defs, d) {
      ItemIsWritten(defs, after, name, d);
      DeclareNamed(defs, after, item);
    }
  }

  lemma {:induction false} PartsVisited(defs: Definitions, w: Walk, extends_: seq<TypeExpr>, mixins: seq<TypeExpr>,
                                        properties: seq<Property>)
    requires Ready(defs, w, ListRefs(extends_) + ListRefs(mixins) + PropertyRefs(properties),
                   ListLiterals(extends_) + ListLiterals(mixins) + PropertyLiterals(properties))
    ensures Visited(defs, w, VisitParts(defs, w, extends_, mixins, properties),
                    ListRefs(extends_) + ListRefs(mixins) + PropertyRefs(properties),
                    ListLiterals(extends_) + ListLiterals(mixins) + PropertyLiterals(properties))
    decreases defs.Keys - w.processed, 2
  {
    hide Ready, Done, SoundModel, VisitList, VisitProperties, ListRefs, PropertyRefs, ListLiterals, PropertyLiterals;
    var refs := ListRefs(extends_) + ListRefs(mixins) + PropertyRefs(properties);
    var lits := ListLiterals(extends_) + ListLiterals(mixins) + PropertyLiterals(properties);
    ReadyPart(defs, w, refs, lits, ListRefs(extends_), ListLiterals(extends_));
    ListVisited(defs, w, extends_);
    var r1 := VisitList(defs, w, extends_);
    if r1.Success? {
      ReadyAgain(defs, w, r1.value, refs, lits, ListRefs(extends_), ListLiterals(extends_));
      ReadyPart(defs, r1.value, refs, lits, ListRefs(mixins), ListLiterals(mixins));
      ListVisited(defs, r1.value, mixins);
      var r2 := VisitList(defs, r1.value, mixins);
      if r2.Success? {
        var r, l := ListRefs(extends_) + ListRefs(mixins), ListLiterals(extends_) + ListLiterals(mixins);
        DoneBoth(defs, w, r1.value, r2.value, ListRefs(extends_), ListLiterals(extends_),
                 ListRefs(mixins), ListLiterals(mixins));
        ReadyAgain(defs, w, r2.value, refs, lits, r, l);
        ReadyPart(defs, r2.value, refs, lits, PropertyRefs(properties), PropertyLiterals(properties));
        PropertiesVisited(defs, r2.value, properties);
        var r3 := VisitProperties(defs, r2.value, properties);
        if r3.Success? {
          DoneBoth(defs, w, r2.value, r3.value, r, l, PropertyRefs(properties), PropertyLiterals(properties));
        }
      }
    }
  }

  lemma {:induction false} ListVisited(defs: Definitions, w: Walk, types: seq<TypeExpr>)
    requires Ready(defs, w, ListRefs(types), ListLiterals(types))
    ensures Visited(defs, w, VisitList(defs, w, types), ListRefs(types), ListLiterals(types))
    decreases defs.Keys - w.processed, 1, types
  {
    hide Ready, Done, Inv, SoundModel, VisitType, Refs, Literals;
    ReadyGives(defs, w, ListRefs(types), ListLiterals(types));
    if types == [] {
      NothingDone(defs, w, {});
    } else {
      var t, rest := types[0], types[1..];
      ReadyPart(defs, w, ListRefs(types), ListLiterals(types), Refs(t), Literals(t));
      TypeVisited(defs, w, t);
      var r := VisitType(defs, w, t);
      if r.Success? {
        ReadyAgain(defs, w, r.value, ListRefs(types), ListLiterals(types), Refs(t), Literals(t));
        ReadyPart(defs, r.value, ListRefs(types), ListLiterals(types), ListRefs(rest), ListLiterals(rest));
        ListVisited(defs, r.value, rest);
        var r2 := VisitList(defs, r.value, rest);
        if r2.Success? {
          DoneBoth(defs, w, r.value, r2.value, Refs(t), Literals(t), ListRefs(rest), ListLiterals(rest));
        }
      }
    }
  }

  lemma {:induction false} PropertiesVisited(defs: Definitions, w: Walk, properties: seq<Property>)
    requires Ready(defs, w, PropertyRefs(properties), PropertyLiterals(properties))
    ensures Visited(defs, w, VisitProperties(defs, w, properties), PropertyRefs(properties),
      PropertyLiterals(properties))
    decreases defs.Keys - w.processed, 1, properties
  {
    hide Ready, Done, Inv, SoundModel, VisitType, Refs, Literals;
    ReadyGives(defs, w, PropertyRefs(properties), PropertyLiterals(properties));
    if properties == [] {
      NothingDone(defs, w, {});
    } else {
      var t, rest := properties[0].typ, properties[1..];
      ReadyPart(defs, w, PropertyRefs(properties), PropertyLiterals(properties), Refs(t), Literals(t));
      TypeVisited(defs, w, t);
      var r := VisitType(defs, w, t);
      if r.Success? {
        ReadyAgain(defs, w, r.value, PropertyRefs(properties), PropertyLiterals(properties), Refs(t), Literals(t));
        ReadyPart(defs, r.value, PropertyRefs(properties), PropertyLiterals(properties),
                  PropertyRefs(rest), PropertyLiterals(rest));
        PropertiesVisited(defs, r.value, rest);
        var r2 := VisitProperties(defs, r.value, rest);
        if r2.Success? {
          DoneBoth(defs, w, r.value, r2.value, Refs(t), Literals(t), PropertyRefs(rest), PropertyLiterals(rest));
        }
      }
    }
  }

  lemma {:induction false} TypeVisited(defs: Definitions, w: Walk, t: TypeExpr)
    requires Ready(defs, w, Refs(t), Literals(t))
    ensures Visited(defs, w, VisitType(defs, w, t), Refs(t), Literals(t))
    decreases defs.Keys - w.processed, 1, t
  {
    hide Ready, Done, Inv, SoundModel, VisitNamed, VisitList, VisitProperties, Refs, Literals, ListRefs, ListLiterals,
         PropertyRefs, PropertyLiterals, PropertiesStop, UsesOf;
    TypeParts(t);
    ReadyGives(defs, w, Refs(t), Literals(t));
    match t {
      case Reference(name) => NamedVisited(defs, w, name);
      case ArrayType(element) => TypeVisited(defs, w, element);
      case MapType(key, value) =>
        ReadyPart(defs, w, Refs(t), Literals(t), Refs(key), Literals(key));
        TypeVisited(defs, w, key);
        var r := VisitType(defs, w, key);
        if r.Success? {
          ReadyAgain(defs, w, r.value, Refs(t), Literals(t), Refs(key), Literals(key));
          ReadyPart(defs, r.value, Refs(t), Literals(t), Refs(value), Literals(value));
          TypeVisited(defs, r.value, value);
          var r2 := VisitType(defs, r.value, value);
          if r2.Success? {
            DoneBoth(defs, w, r.value, r2.value, Refs(key), Literals(key), Refs(value), Literals(value));
          }
        }
      case And(items) => ListVisited(defs, w, items);
      case Or(items) => ListVisited(defs, w, items);
      case Tuple(items) => ListVisited(defs, w, items);
      case StructureLiteral(properties) =>
        LiteralSound(defs, w, Refs(t), Literals(t), properties);
        ReadyPart(defs, w, Refs(t), Literals(t), PropertyRefs(properties), PropertyLiterals(properties));
        PropertiesVisited(defs, w, properties);
        var r := VisitProperties(defs, w, properties);
        if r.Success? && AllNamed(defs, properties) {
          LiteralDone(defs, w, r.value, properties);
        }
      case _ => NothingDone(defs, w, {});
    }
  }

  lemma LiteralDone(defs: Definitions, w: Walk, after: Walk, properties: seq<Property>)
    requires Done(defs, w, after, PropertyRefs(properties), PropertyLiterals(properties)) && AllNamed(defs, properties)
    ensures Done(defs, w, Declared(after, Anonymous(properties, UsesOf(properties, after.beingProcessed))),
                 PropertyRefs(properties), PropertyLiterals(properties) + {properties})
  {
    hide Done, Inv, PropertyRefs, PropertyLiterals, LiteralsOf, PropertiesStop, UsesOf;
    var refs, lits := PropertyRefs(properties), PropertyLiterals(properties);
    var item := Anonymous(properties, UsesOf(properties, after.beingProcessed));
    DoneGives(defs, w, after, refs, lits);
    DeclareAnonymous(defs, after, item);
    DoneBoth(defs, w, after, Declared(after, item), refs, lits, refs, lits + {properties});
    DoneParts(defs, w, Declared(after, item), refs, lits, properties);
  }

  lemma {:induction false} NamesVisited(defs: Definitions, w: Walk, names: seq<string>)
    requires Inv(defs, w) && w.stack == [] && forall a | a in names :: a in defs
    ensures var r := VisitNames(defs, w, names);
      if r.Failure? then !SoundModel(defs)
      else Inv(defs, r.value) && r.value.stack == [] && w.processed <= r.value.processed
           && forall a | a in names :: a in r.value.processed
    decreases |names|
  {
    hide Inv, Done, Ready, SoundModel, VisitNamed, LiteralsOf;
    if names != [] {
      var name, rest := names[0], names[1..];
      assert name in names && forall a | a in rest :: a in names;
      Asked(defs, w, name);
      NamedVisited(defs, w, name);
      var r := VisitNamed(defs, w, name);
      if r.Success? {
        DoneGives(defs, w, r.value, {name}, {});
        assert name in {name};
        NamesVisited(defs, r.value, rest);
        forall a | a in names ensures a == name || a in rest {
          var i :| 0 <= i < |names| && names[i] == a;
          assert i == 0 || rest[i - 1] == a;
        }
      }
    }
  }

  // For a model that lists its definitions the generator succeeds exactly when the
  // model is sound; then every type that is not written by hand is declared, and
  // the header is in order.
  lemma GeneratedHeader(defs: Definitions, typeNames: seq<string>)
    requires forall a :: a in typeNames <==> a in defs
    ensures var r := Generated(defs, typeNames);
      && (r.Success? <==> SoundModel(defs))
      && (r.Success? ==> Inv(defs, r.value) && r.value.stack == []
                         && GoodHeader(defs, r.value.header) && NamesOf(r.value.header) == defs.Keys - PREMARKED)
  {
    hide Inv, SoundModel, VisitNames, NamesOf, GoodHeader;
    Started(defs);
    NamesVisited(defs, Walk(PREMARKED, {}, [], []), typeNames);
    var r := Generated(defs, typeNames);
    if r.Success? {
      AllDeclared(defs, r.value);
      HeaderIsGood(defs, r.value);
    }
  }

  lemma HeaderIsGood(defs: Definitions, w: Walk)
    requires Inv(defs, w)
    ensures GoodHeader(defs, w.header)
  {
    hide GoodHeader, NamesOf, DefinitionRefs, Declarable, OnStack;
  }
}
