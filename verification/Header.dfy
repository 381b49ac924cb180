// lspgen/lspgen.cpp: what the header with the generated types has to be like, and
// what that means for its readers.
module Header {
  import opened Wrappers
  import opened MetaModel
  import opened TypeNames

  // ---------------------------------------------------------------- what the header has to be

  // One hop after another along references.
  ghost predicate IsPath(defs: Definitions, p: seq<string>) {
    && p != []
    && forall i | 0 <= i < |p| - 1 :: p[i] in defs && p[i + 1] in DefinitionRefs(defs[p[i]])
  }

  ghost predicate Reaches(defs: Definitions, a: string, b: string) {
    exists p :: IsPath(defs, p) && p[0] == a && p[|p| - 1] == b
  }

  // An optional property that is a plain reference: std::unique_ptr of the type
  // (boxed) while that type is being processed, std::optional of it otherwise.
  datatype Use = Use(property: string, target: string, boxed: bool)

  // The properties copied from a mixin.
  datatype Copied = Copied(mixin: string, uses: seq<Use>)

  // A declaration in the generated header.
  datatype Item =
    | Named(name: string, copied: seq<Copied>, own: seq<Use>)
    | Anonymous(properties: seq<Property>, own: seq<Use>)

  function NamesOf(items: seq<Item>): set<string> {
    if items == [] then {}
    else
      var last := items[|items| - 1];
      NamesOf(items[..|items| - 1]) + (if last.Named? then {last.name} else {})
  }

  function LiteralsOf(items: seq<Item>): set<seq<Property>> {
    if items == [] then {}
    else
      var last := items[|items| - 1];
      LiteralsOf(items[..|items| - 1]) + (if last.Anonymous? then {last.properties} else {})
  }

  function UsesOf(properties: seq<Property>, boxed: set<string>): seq<Use> {
    if properties == [] then []
    else
      var p := properties[0];
      (if p.isOptional && p.typ.Reference? then [Use(p.name, p.typ.name, p.typ.name in boxed)] else [])
      + UsesOf(properties[1..], boxed)
  }

  // The uses are the optional properties with a plain reference for a type, at these
  // places, in their order, and no others.
  ghost predicate UsesAt(properties: seq<Property>, uses: seq<Use>, places: seq<nat>) {
    && |places| == |uses|
    && (forall i, j | 0 <= i < j < |places| :: places[i] < places[j])
    && (forall i | 0 <= i < |places| :: IsUse(properties, places[i], uses[i]))
    && (forall k: nat | k < |properties| && k !in places :: !IsOptionalReference(properties[k]))
  }

  predicate IsUse(properties: seq<Property>, k: nat, u: Use) {
    && k < |properties| && properties[k].isOptional && properties[k].typ == Reference(u.target)
    && u.property == properties[k].name
  }

  predicate IsOptionalReference(p: Property) { p.isOptional && p.typ.Reference? }

  ghost predicate UsesListed(properties: seq<Property>, uses: seq<Use>) {
    exists places: seq<nat> :: UsesAt(properties, uses, places)
  }

  lemma {:induction false} UsesPlaces(properties: seq<Property>, boxed: set<string>)
    ensures UsesListed(properties, UsesOf(properties, boxed))
  {
    hide UsesAt;
    if properties == [] {
      NoPlaces();
    } else {
      UsesPlaces(properties[1..], boxed);
      var places :| UsesAt(properties[1..], UsesOf(properties[1..], boxed), places);
      var p := properties[0];
      if IsOptionalReference(p) {
        FirstPlace(properties, Use(p.name, p.typ.name, p.typ.name in boxed), UsesOf(properties[1..], boxed), places);
      } else {
        LaterPlaces(properties, UsesOf(properties[1..], boxed), places);
        assert [] + UsesOf(properties[1..], boxed) == UsesOf(properties[1..], boxed);
      }
    }
  }

  lemma NoPlaces()
    ensures UsesAt([], [], [])
  {
  }

  function Shifted(places: seq<nat>): seq<nat> {
    seq(|places|, i requires 0 <= i < |places| => places[i] + 1)
  }

  lemma LaterPlaces(properties: seq<Property>, uses: seq<Use>, places: seq<nat>)
    requires properties != [] && !IsOptionalReference(properties[0]) && UsesAt(properties[1..], uses, places)
    ensures UsesAt(properties, uses, Shifted(places))
  {
    var next := Shifted(places);
    forall k: nat | k < |properties| && k !in next ensures !IsOptionalReference(properties[k]) {
      InShifted(places, k);
      if k > 0 { assert properties[1..][k - 1] == properties[k]; }
    }
    forall i | 0 <= i < |next| ensures IsUse(properties, next[i], uses[i]) { NextUse(properties, places[i], uses[i]); }
  }

  lemma InShifted(places: seq<nat>, k: nat)
    ensures k in Shifted(places) <==> k > 0 && k - 1 in places
  {
    var next := Shifted(places);
    if k > 0 && k - 1 in places {
      var i :| 0 <= i < |places| && places[i] == k - 1;
      assert next[i] == k;
    }
  }

  lemma NextUse(properties: seq<Property>, k: nat, u: Use)
    requires properties != [] && IsUse(properties[1..], k, u)
    ensures IsUse(properties, k + 1, u)
  {
  }

  lemma FirstPlace(properties: seq<Property>, u: Use, uses: seq<Use>, places: seq<nat>)
    requires properties != [] && IsUse(properties, 0, u) && UsesAt(properties[1..], uses, places)
    ensures UsesAt(properties, [u] + uses, [0] + Shifted(places))
  {
    hide IsUse, IsOptionalReference, Shifted;
    var next, all := [0] + Shifted(places), [u] + uses;
    ShiftedIs(places);
    forall k: nat | k < |properties| && k !in next ensures !IsOptionalReference(properties[k]) {
      assert next[0] == 0 && forall m | m in Shifted(places) :: m in next;
      InShifted(places, k);
      assert properties[1..][k - 1] == properties[k];
    }
    forall i | 0 <= i < |next| ensures IsUse(properties, next[i], all[i]) {
      if i > 0 { NextUse(properties, places[i - 1], uses[i - 1]); }
    }
  }

  lemma ShiftedIs(places: seq<nat>)
    ensures |Shifted(places)| == |places|
    ensures forall i | 0 <= i < |places| :: Shifted(places)[i] == places[i] + 1
  {
  }

  function OwnProperties(d: Definition): seq<Property> { if d.Structure? then d.properties else [] }

  function Mixins(d: Definition): seq<TypeExpr> { if d.Structure? then d.mixins else [] }

  // The types among these that are not complete yet.
  ghost function Incomplete(before: seq<Item>, refs: set<string>): set<string> {
    refs - NamesOf(before) - PREMARKED
  }

  // What a declaration owes to the ones before it.
  ghost predicate GoodNamed(defs: Definitions, before: seq<Item>, item: Item)
    requires item.Named?
  {
    var a := item.name;
    && a in defs && a !in PREMARKED && a !in NamesOf(before)
    && (forall b | b in Incomplete(before, DefinitionRefs(defs[a])) :: Reaches(defs, b, a))
    && DefinitionLiterals(defs[a]) <= LiteralsOf(before)
    && item.own == UsesOf(OwnProperties(defs[a]), Incomplete(before, PropertyRefs(OwnProperties(defs[a]))))
    && |item.copied| == |Mixins(defs[a])|
    && forall i | 0 <= i < |item.copied| :: GoodCopy(defs, before, a, item.copied[i], Mixins(defs[a])[i])
  }

  // Properties copied from a mixin keep the rules unless the mixin itself is
  // waiting for the structure.
  ghost predicate GoodCopy(defs: Definitions, before: seq<Item>, a: string, copy: Copied, mixin: TypeExpr) {
    && mixin == Reference(copy.mixin) && copy.mixin in defs
    && var properties := OwnProperties(defs[copy.mixin]);
       UsesListed(properties, copy.uses) &&
       (|| copy.mixin in PREMARKED || (copy.mixin !in NamesOf(before) && Reaches(defs, copy.mixin, a))
        || (&& copy.uses == UsesOf(properties, Incomplete(before, PropertyRefs(properties)))
            && forall b | b in Incomplete(before, PropertyRefs(properties)) :: Reaches(defs, b, a)))
  }

  ghost predicate GoodAnonymous(before: seq<Item>, item: Item)
    requires item.Anonymous?
  {
    && PropertyLiterals(item.properties) <= LiteralsOf(before)
    && item.own == UsesOf(item.properties, Incomplete(before, PropertyRefs(item.properties)))
  }

  ghost predicate GoodItem(defs: Definitions, before: seq<Item>, item: Item) {
    if item.Named? then GoodNamed(defs, before, item) else GoodAnonymous(before, item)
  }

  ghost predicate GoodHeader(defs: Definitions, items: seq<Item>) {
    forall i | 0 <= i < |items| :: GoodItem(defs, items[..i], items[i])
  }

  predicate IsStructureReference(defs: Definitions, t: TypeExpr) {
    t.Reference? && t.name in defs && defs[t.name].Structure?
  }

  // The first property whose type has no name decides.
  function PropertiesStop(defs: Definitions, properties: seq<Property>): Option<Stop> {
    if properties == [] then None
    else if NameStop(defs, properties[0].typ).Some? then NameStop(defs, properties[0].typ)
    else PropertiesStop(defs, properties[1..])
  }

  predicate AllNamed(defs: Definitions, properties: seq<Property>) { PropertiesStop(defs, properties).None? }

  predicate IsMixin(defs: Definitions, t: TypeExpr) {
    IsStructureReference(defs, t) && AllNamed(defs, defs[t.name].properties)
  }

  // The generator refuses an enumeration over anything but a base type, and a
  // base or mixin that is not a structure; and it needs a name for the type of
  // every property, copied ones included, and for the target of an alias.
  ghost predicate Declarable(defs: Definitions, d: Definition) {
    match d
    case Enumeration(valueType) => valueType.Base?
    case Structure(extends_, mixins, properties) =>
      && (forall t | t in extends_ :: IsStructureReference(defs, t))
      && (forall t | t in mixins :: IsMixin(defs, t))
      && AllNamed(defs, properties)
    case TypeAlias(target) => Nameable(defs, target)
  }

  ghost predicate SoundType(defs: Definitions, a: string)
    requires a in defs
  {
    && DefinitionRefs(defs[a]) <= defs.Keys + PREMARKED
    && Declarable(defs, defs[a])
    && forall l | l in DefinitionLiterals(defs[a]) :: AllNamed(defs, l)
  }

  // No reference leads out of the model, and every definition and every structure
  // literal can be declared.
  ghost predicate SoundModel(defs: Definitions) {
    forall a | a in defs.Keys - PREMARKED :: SoundType(defs, a)
  }

  // ---------------------------------------------------------------- what the header says

  lemma OwnRefs(d: Definition)
    ensures PropertyRefs(OwnProperties(d)) <= DefinitionRefs(d)
  {
  }

  // No type is declared twice.
  lemma DeclaredOnce(defs: Definitions, items: seq<Item>, i: nat, j: nat)
    requires GoodHeader(defs, items) && i < j < |items| && items[i].Named? && items[j].Named?
    ensures items[i].name != items[j].name
  {
    hide GoodCopy, Reaches, UsesOf, Incomplete, DefinitionRefs, DefinitionLiterals, LiteralsOf, NamesOf;
    assert GoodItem(defs, items[..j], items[j]);
    NamedIn(items[..j], i);
  }

  lemma {:induction false} NamedIn(items: seq<Item>, i: nat)
    requires i < |items| && items[i].Named?
    ensures items[i].name in NamesOf(items)
  {
    if i < |items| - 1 { NamedIn(items[..|items| - 1], i); }
  }

  lemma {:induction false} NamedAt(items: seq<Item>, name: string) returns (i: nat)
    requires name in NamesOf(items)
    ensures i < |items| && items[i].Named? && items[i].name == name
  {
    var last := items[|items| - 1];
    if last.Named? && last.name == name {
      i := |items| - 1;
    } else {
      i := NamedAt(items[..|items| - 1], name);
    }
  }

  // What a type refers to is declared before it, unless it leads back to it.
  lemma DeclaredBefore(defs: Definitions, items: seq<Item>, i: nat, b: string)
    requires GoodHeader(defs, items) && i < |items| && items[i].Named? && items[i].name in defs
    requires b in DefinitionRefs(defs[items[i].name]) && b !in PREMARKED && !Reaches(defs, b, items[i].name)
    ensures exists j :: 0 <= j < i && items[j].Named? && items[j].name == b
  {
    hide GoodCopy, Reaches, UsesOf, DefinitionRefs, DefinitionLiterals, LiteralsOf, NamesOf;
    assert GoodItem(defs, items[..i], items[i]);
    assert b !in Incomplete(items[..i], DefinitionRefs(defs[items[i].name]));
    var j := NamedAt(items[..i], b);
    assert items[j] == items[..i][j];
  }

  // In a model without reference cycles the header is a topological order.
  lemma AcyclicInOrder(defs: Definitions, items: seq<Item>)
    requires GoodHeader(defs, items)
    requires forall a, b | a in defs && b in DefinitionRefs(defs[a]) :: !Reaches(defs, b, a)
    ensures forall i, b | 0 <= i < |items| && items[i].Named? && items[i].name in defs
                          && b in DefinitionRefs(defs[items[i].name]) && b !in PREMARKED
      :: exists j :: 0 <= j < i && items[j].Named? && items[j].name == b
  {
    hide GoodHeader, Reaches, DefinitionRefs;
    forall i, b | 0 <= i < |items| && items[i].Named? && items[i].name in defs
                  && b in DefinitionRefs(defs[items[i].name]) && b !in PREMARKED
      ensures exists j :: 0 <= j < i && items[j].Named? && items[j].name == b
    {
      DeclaredBefore(defs, items, i, b);
    }
  }

  lemma {:induction false} UsesTell(properties: seq<Property>, boxed: set<string>, u: Use)
    requires u in UsesOf(properties, boxed)
    ensures u.target in PropertyRefs(properties) && (u.boxed <==> u.target in boxed)
  {
    if u in UsesOf(properties[1..], boxed) { UsesTell(properties[1..], boxed, u); }
  }

  // An optional reference is a std::unique_ptr exactly when the type it refers to
  // is still incomplete, and then that type leads back to the structure.
  lemma BoxedExactly(defs: Definitions, items: seq<Item>, i: nat, u: Use)
    requires GoodHeader(defs, items) && i < |items| && items[i].Named? && u in items[i].own
    ensures u.boxed <==> u.target !in PREMARKED && u.target !in NamesOf(items[..i])
    ensures u.boxed ==> Reaches(defs, u.target, items[i].name)
  {
    hide GoodCopy, Reaches, UsesOf, DefinitionRefs, DefinitionLiterals, LiteralsOf, NamesOf, PropertyRefs;
    assert GoodItem(defs, items[..i], items[i]);
    var d := defs[items[i].name];
    OwnRefs(d);
    UsesTell(OwnProperties(d), Incomplete(items[..i], PropertyRefs(OwnProperties(d))), u);
    if u.boxed { assert u.target in Incomplete(items[..i], DefinitionRefs(d)); }
  }

  // What a mixin leads to through what it refers to.
  lemma ReachesThrough(defs: Definitions, m: string, b: string, a: string)
    requires m in defs && b in DefinitionRefs(defs[m]) && Reaches(defs, b, a)
    ensures Reaches(defs, m, a)
  {
    hide DefinitionRefs;
    var p :| IsPath(defs, p) && p[0] == b && p[|p| - 1] == a;
    var q := [m] + p;
    assert forall i | 1 <= i < |q| :: q[i] == p[i - 1];
    assert IsPath(defs, q) && q[0] == m && q[|q| - 1] == a;
  }

  // Of a mixin that is declared before the structure, or does not lead back to it,
  // copied references follow the rule for own ones.
  lemma CopiedBoxedExactly(defs: Definitions, items: seq<Item>, i: nat, k: nat, u: Use)
    requires GoodHeader(defs, items) && i < |items| && items[i].Named? && k < |items[i].copied|
    requires var m := items[i].copied[k].mixin;
      m !in PREMARKED && (m in NamesOf(items[..i]) || !Reaches(defs, m, items[i].name))
    requires u in items[i].copied[k].uses
    ensures u.boxed <==> u.target !in PREMARKED && u.target !in NamesOf(items[..i])
    ensures u.boxed ==> Reaches(defs, u.target, items[i].name)
  {
    hide Reaches, UsesOf, DefinitionRefs, DefinitionLiterals, LiteralsOf, NamesOf, PropertyRefs, Mixins, Incomplete;
    var a, copy := items[i].name, items[i].copied[k];
    assert GoodItem(defs, items[..i], items[i]);
    assert GoodCopy(defs, items[..i], a, copy, Mixins(defs[a])[k]);
    var refs := PropertyRefs(OwnProperties(defs[copy.mixin]));
    UsesTell(OwnProperties(defs[copy.mixin]), Incomplete(items[..i], refs), u);
    IncompleteIs(items[..i], refs, u.target);
  }

  // So a copied std::optional of an incomplete type comes from a mixin that leads
  // back to the structure and is declared with it or after it.
  lemma TooEarlyWhy(defs: Definitions, items: seq<Item>, i: nat, k: nat, u: Use) returns (j: nat)
    requires GoodHeader(defs, items) && NamesOf(items) == defs.Keys - PREMARKED
    requires i < |items| && items[i].Named? && k < |items[i].copied| && items[i].copied[k].mixin !in PREMARKED
    requires u in items[i].copied[k].uses
    requires !u.boxed && u.target !in PREMARKED && u.target !in NamesOf(items[..i])
    ensures var m := items[i].copied[k].mixin;
      Reaches(defs, m, items[i].name) && i <= j < |items| && items[j].Named? && items[j].name == m
  {
    hide Reaches, UsesOf, DefinitionRefs, DefinitionLiterals, LiteralsOf, NamesOf, PropertyRefs, Mixins, Incomplete;
    var a, copy := items[i].name, items[i].copied[k];
    assert GoodItem(defs, items[..i], items[i]);
    assert GoodCopy(defs, items[..i], a, copy, Mixins(defs[a])[k]);
    var m := copy.mixin;
    if m in NamesOf(items[..i]) || !Reaches(defs, m, a) {
      CopiedBoxedExactly(defs, items, i, k, u);
      assert false;
    }
    j := NamedAt(items, m);
    if j < i {
      assert items[..i][j] == items[j];
      NamedIn(items[..i], j);
    }
  }

  // Of a mixin that does not lead back to the structure every property that is
  // copied has a complete type: what it refers to is declared before the
  // structure, and no copied reference is a std::unique_ptr.
  lemma CopiedComplete(defs: Definitions, items: seq<Item>, i: nat, k: nat)
    requires GoodHeader(defs, items) && i < |items| && items[i].Named? && k < |items[i].copied|
    requires var m := items[i].copied[k].mixin; m !in PREMARKED && !Reaches(defs, m, items[i].name)
    ensures var copy := items[i].copied[k];
      && copy.mixin in defs
      && (forall b | b in PropertyRefs(OwnProperties(defs[copy.mixin])) && b !in PREMARKED ::
            exists j :: 0 <= j < i && items[j].Named? && items[j].name == b)
      && (forall u | u in copy.uses :: !u.boxed && u.target in PropertyRefs(OwnProperties(defs[copy.mixin])))
  {
    hide Reaches, UsesOf, DefinitionRefs, DefinitionLiterals, LiteralsOf, NamesOf, PropertyRefs, Mixins, Incomplete;
    var a, copy := items[i].name, items[i].copied[k];
    assert GoodItem(defs, items[..i], items[i]);
    assert GoodCopy(defs, items[..i], a, copy, Mixins(defs[a])[k]);
    var properties := OwnProperties(defs[copy.mixin]);
    OwnRefs(defs[copy.mixin]);
    forall b | b in Incomplete(items[..i], PropertyRefs(properties)) ensures false {
      IncompleteIs(items[..i], PropertyRefs(properties), b);
      ReachesThrough(defs, copy.mixin, b, a);
    }
    forall b | b in PropertyRefs(properties) && b !in PREMARKED
      ensures exists j :: 0 <= j < i && items[j].Named? && items[j].name == b
    {
      IncompleteIs(items[..i], PropertyRefs(properties), b);
      var j := NamedAt(items[..i], b);
      assert items[j] == items[..i][j];
    }
    forall u | u in copy.uses ensures !u.boxed && u.target in PropertyRefs(properties) {
      UsesTell(properties, Incomplete(items[..i], PropertyRefs(properties)), u);
    }
  }

  lemma IncompleteIs(before: seq<Item>, refs: set<string>, b: string)
    ensures b in Incomplete(before, refs) <==> b in refs && b !in NamesOf(before) && b !in PREMARKED
  {
  }
}
