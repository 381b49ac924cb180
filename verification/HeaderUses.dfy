// lspgen/lspgen.cpp: which properties of a type the generated header makes optional,
// and which types are in it, said of the meta model alone.
module HeaderUses {
  import opened Wrappers
  import opened MetaModel
  import opened TypeNames
  import opened Header
  import opened Generator

  // A property is declared with an std::optional or a std::unique_ptr of a type
  // exactly when it is optional and its type is a reference to that type.
  lemma UsedExactly(properties: seq<Property>, uses: seq<Use>, name: string, target: string)
    requires UsesListed(properties, uses)
    ensures (exists u | u in uses :: u.property == name && u.target == target) <==>
      (exists p | p in properties :: p.name == name && p.isOptional && p.typ == Reference(target))
    ensures |uses| <= |properties|
  {
    var places :| UsesAt(properties, uses, places);
    if u :| u in uses && u.property == name && u.target == target {
      var i :| 0 <= i < |uses| && uses[i] == u;
      assert IsUse(properties, places[i], u);
      assert properties[places[i]] in properties;
    }
    if p :| p in properties && p.name == name && p.isOptional && p.typ == Reference(target) {
      var k :| 0 <= k < |properties| && properties[k] == p;
      assert IsOptionalReference(properties[k]) && k in places;
      var i :| 0 <= i < |places| && places[i] == k;
      assert IsUse(properties, places[i], uses[i]) && uses[i] in uses;
    }
    PlacesBound(properties, uses, places);
  }

  lemma PlacesBound(properties: seq<Property>, uses: seq<Use>, places: seq<nat>)
    requires UsesAt(properties, uses, places)
    ensures |uses| <= |properties|
  {
    if places != [] {
      PlaceAtLeast(places, |places| - 1);
      assert IsUse(properties, places[|places| - 1], uses[|places| - 1]);
    }
  }

  lemma {:induction false} PlaceAtLeast(places: seq<nat>, i: nat)
    requires i < |places| && forall i, j | 0 <= i < j < |places| :: places[i] < places[j]
    ensures places[i] >= i
  {
    if i > 0 { PlaceAtLeast(places, i - 1); }
  }

  // What a declaration says of its properties, own and copied, in order.
  ghost predicate Tells(defs: Definitions, item: Item) {
    match item
    case Anonymous(properties, own) => UsesListed(properties, own)
    case Named(name, copied, own) =>
      name in defs &&
      match defs[name]
      case Structure(_, mixins, properties) =>
        && UsesListed(properties, own) && |copied| == |mixins|
        && forall k | 0 <= k < |mixins| ::
             && mixins[k] == Reference(copied[k].mixin) && copied[k].mixin in defs
             && defs[copied[k].mixin].Structure?
             && UsesListed(defs[copied[k].mixin].properties, copied[k].uses)
      case _ => own == [] && copied == []
  }

  lemma ItemTells(defs: Definitions, before: seq<Item>, item: Item)
    requires GoodItem(defs, before, item)
    requires item.Named? ==> item.name in defs && Declarable(defs, defs[item.name])
    ensures Tells(defs, item)
  {
    hide UsesListed, UsesOf, Incomplete, PropertyRefs, DefinitionRefs, DefinitionLiterals, NamesOf, LiteralsOf, Reaches,
         AllNamed;
    if item.Anonymous? {
      UsesPlaces(item.properties, Incomplete(before, PropertyRefs(item.properties)));
    } else {
      var d := defs[item.name];
      UsesPlaces(OwnProperties(d), Incomplete(before, PropertyRefs(OwnProperties(d))));
      if d.Structure? {
        forall k | 0 <= k < |d.mixins|
          ensures d.mixins[k] == Reference(item.copied[k].mixin) && item.copied[k].mixin in defs
          ensures defs[item.copied[k].mixin].Structure?
          ensures UsesListed(defs[item.copied[k].mixin].properties, item.copied[k].uses)
        {
          assert GoodCopy(defs, before, item.name, item.copied[k], d.mixins[k]);
          assert d.mixins[k] in d.mixins;
        }
      } else {
        NothingUsed(Incomplete(before, PropertyRefs([])));
      }
    }
  }

  lemma NothingUsed(boxed: set<string>)
    ensures UsesOf([], boxed) == []
  {
  }

  // The header of a model that the generator gets through: its types are those of the
  // model but for the three that are written by hand, each of them once, and each
  // declaration says of its properties what the model does.
  lemma HeaderTells(defs: Definitions, typeNames: seq<string>)
    requires (forall a :: a in typeNames <==> a in defs) && Generated(defs, typeNames).Success?
    ensures var items := Generated(defs, typeNames).value.header;
      && (forall i | 0 <= i < |items| :: Tells(defs, items[i]))
      && (forall a ::
            Declares(items, a) <==> a in defs && a != "LSPArray" && a != "LSPObject" && a != "LSPAny")
      && (forall i, j | 0 <= i < j < |items| && items[i].Named? && items[j].Named? :: items[i].name != items[j].name)
  {
    hide Generated, GoodHeader, NamesOf, Tells, SoundType, Inv;
    GeneratedHeader(defs, typeNames);
    var items := Generated(defs, typeNames).value.header;
    forall i | 0 <= i < |items| ensures Tells(defs, items[i]) {
      GoodAt(defs, items, i);
      if items[i].Named? {
        NamedIn(items, i);
        SoundAt(defs, items[i].name);
      }
      ItemTells(defs, items[..i], items[i]);
    }
    forall a ensures Declares(items, a) <==> a in NamesOf(items) { DeclaresIt(items, a); }
    forall i, j | 0 <= i < j < |items| && items[i].Named? && items[j].Named?
      ensures items[i].name != items[j].name
    {
      DeclaredOnce(defs, items, i, j);
    }
  }

  predicate Declares(items: seq<Item>, a: string) {
    exists i :: 0 <= i < |items| && items[i].Named? && items[i].name == a
  }

  lemma DeclaresIt(items: seq<Item>, a: string)
    ensures Declares(items, a) <==> a in NamesOf(items)
  {
    hide NamesOf;
    if i :| 0 <= i < |items| && items[i].Named? && items[i].name == a { NamedIn(items, i); }
    if a in NamesOf(items) { var i := NamedAt(items, a); }
  }

  lemma GoodAt(defs: Definitions, items: seq<Item>, i: nat)
    requires GoodHeader(defs, items) && i < |items|
    ensures GoodItem(defs, items[..i], items[i])
  {
    hide GoodItem;
  }

  lemma SoundAt(defs: Definitions, a: string)
    requires SoundModel(defs) && a in defs.Keys - PREMARKED
    ensures Declarable(defs, defs[a])
  {
    hide Declarable, DefinitionRefs, DefinitionLiterals;
    assert SoundType(defs, a);
  }
}
