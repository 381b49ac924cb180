// lspgen/lspgen.cpp, OrType::extract: which alternatives a union keeps, and in which
// order.
module Unions {
  import opened MetaModel
  import opened OrType

  // The types are the structure literals among the items, or the others, at these
  // places, in their order.
  ghost predicate PicksAt(items: seq<TypeExpr>, types: seq<TypeExpr>, literal: bool, places: seq<nat>) {
    && |places| == |types|
    && (forall i, j | 0 <= i < j < |places| :: places[i] < places[j])
    && (forall i | 0 <= i < |places| :: IsAt(items, types[i], places[i]))
    && (forall k: nat | k < |items| :: k in places <==> items[k].StructureLiteral? == literal)
  }

  predicate IsAt(items: seq<TypeExpr>, t: TypeExpr, k: nat) { k < |items| && items[k] == t }

  ghost predicate Picks(items: seq<TypeExpr>, types: seq<TypeExpr>, literal: bool) {
    exists places: seq<nat> :: PicksAt(items, types, literal, places)
  }

  function Shifted(places: seq<nat>): seq<nat> {
    seq(|places|, i requires 0 <= i < |places| => places[i] + 1)
  }

  lemma InShifted(places: seq<nat>, k: nat)
    ensures k in Shifted(places) <==> k > 0 && k - 1 in places
  {
    var next := Shifted(places);
    if k > 0 && k - 1 in places {
      var i :| 0 <= i < |places| && places[i] == k - 1;
      assert next[i] == k;
    }
  }

  lemma NothingPicked(literal: bool)
    ensures PicksAt([], [], literal, [])
  {
  }

  lemma FirstPicked(items: seq<TypeExpr>, types: seq<TypeExpr>, literal: bool, places: seq<nat>)
    requires items != [] && PicksAt(items[1..], types, literal, places)
    ensures items[0].StructureLiteral? != literal ==> PicksAt(items, types, literal, Shifted(places))
    ensures items[0].StructureLiteral? == literal ==> PicksAt(items, [items[0]] + types, literal, [0] + Shifted(places))
  {
    if items[0].StructureLiteral? == literal {
      OnePicked(items, types, literal, places);
    } else {
      NonePicked(items, types, literal, places);
    }
  }

  lemma NonePicked(items: seq<TypeExpr>, types: seq<TypeExpr>, literal: bool, places: seq<nat>)
    requires items != [] && PicksAt(items[1..], types, literal, places) && items[0].StructureLiteral? != literal
    ensures PicksAt(items, types, literal, Shifted(places))
  {
    hide IsAt, Shifted;
    var next := Shifted(places);
    ShiftedIs(places);
    forall k: nat | k < |items| ensures k in next <==> items[k].StructureLiteral? == literal {
      InShifted(places, k);
      if k > 0 { assert items[1..][k - 1] == items[k]; }
    }
    forall i | 0 <= i < |next| ensures IsAt(items, types[i], next[i]) {
      NextAt(items, types[i], places[i]);
    }
  }

  lemma OnePicked(items: seq<TypeExpr>, types: seq<TypeExpr>, literal: bool, places: seq<nat>)
    requires items != [] && PicksAt(items[1..], types, literal, places) && items[0].StructureLiteral? == literal
    ensures PicksAt(items, [items[0]] + types, literal, [0] + Shifted(places))
  {
    hide IsAt, Shifted;
    var next, all := [0] + Shifted(places), [items[0]] + types;
    ShiftedIs(places);
    forall k: nat | k < |items| ensures k in next <==> items[k].StructureLiteral? == literal {
      InFirst(Shifted(places), k);
      InShifted(places, k);
      if k > 0 { assert items[1..][k - 1] == items[k]; }
    }
    forall i | 0 <= i < |next| ensures IsAt(items, all[i], next[i]) {
      if i > 0 { NextAt(items, types[i - 1], places[i - 1]); } else { FirstAt(items); }
    }
  }

  lemma ShiftedIs(places: seq<nat>)
    ensures |Shifted(places)| == |places|
    ensures forall i | 0 <= i < |places| :: Shifted(places)[i] == places[i] + 1
  {
  }

  lemma NextAt(items: seq<TypeExpr>, t: TypeExpr, k: nat)
    requires items != [] && IsAt(items[1..], t, k)
    ensures IsAt(items, t, k + 1)
  {
  }

  lemma FirstAt(items: seq<TypeExpr>)
    requires items != []
    ensures IsAt(items, items[0], 0)
  {
  }

  lemma InFirst(places: seq<nat>, k: nat)
    ensures k in [0] + places <==> k == 0 || k in places
  {
  }

  lemma TypesUnfolded(items: seq<TypeExpr>)
    ensures items == [] ==> NonLiterals(items) == []
    ensures items != [] && items[0].StructureLiteral? ==> NonLiterals(items) == NonLiterals(items[1..])
    ensures items != [] && !items[0].StructureLiteral? ==>
      NonLiterals(items) == [items[0]] + NonLiterals(items[1..])
  {
    if items != [] { assert [] + NonLiterals(items[1..]) == NonLiterals(items[1..]); }
  }

  lemma LiteralsUnfolded(items: seq<TypeExpr>)
    ensures items == [] ==> AsTypes(LiteralsIn(items)) == []
    ensures items != [] && items[0].StructureLiteral? ==>
      AsTypes(LiteralsIn(items)) == [items[0]] + AsTypes(LiteralsIn(items[1..]))
    ensures items != [] && !items[0].StructureLiteral? ==>
      AsTypes(LiteralsIn(items)) == AsTypes(LiteralsIn(items[1..]))
  {
    hide AsTypes;
    if items != [] {
      var literals := LiteralsIn(items[1..]);
      assert [] + literals == literals;
      if items[0].StructureLiteral? { FirstAsType(items[0].properties, literals); }
    } else {
      NoTypes();
    }
  }

  lemma FirstAsType(first: Properties, literals: seq<Properties>)
    ensures AsTypes([first] + literals) == [StructureLiteral(first)] + AsTypes(literals)
  {
  }

  lemma NoTypes()
    ensures AsTypes([]) == []
  {
  }

  lemma {:induction false} TypesPicked(items: seq<TypeExpr>)
    ensures Picks(items, NonLiterals(items), false)
  {
    hide PicksAt, NonLiterals, LiteralsIn, AsTypes;
    TypesUnfolded(items);
    if items == [] {
      NothingPicked(false);
    } else {
      TypesPicked(items[1..]);
      var places :| PicksAt(items[1..], NonLiterals(items[1..]), false, places);
      FirstPicked(items, NonLiterals(items[1..]), false, places);
    }
  }

  lemma {:induction false} LiteralsPicked(items: seq<TypeExpr>)
    ensures Picks(items, AsTypes(LiteralsIn(items)), true)
  {
    hide PicksAt, NonLiterals, LiteralsIn, AsTypes;
    LiteralsUnfolded(items);
    if items == [] {
      NothingPicked(true);
    } else {
      LiteralsPicked(items[1..]);
      var places :| PicksAt(items[1..], AsTypes(LiteralsIn(items[1..])), true, places);
      FirstPicked(items, AsTypes(LiteralsIn(items[1..])), true, places);
    }
  }

  function NameList(properties: Properties): seq<string> {
    seq(|properties|, p requires 0 <= p < |properties| => properties[p].name)
  }

  lemma NamesAre(a: Properties, b: Properties)
    ensures NameList(a) == NameList(b) <==> SameNames(a, b)
  {
    if NameList(a) == NameList(b) {
      forall p | 0 <= p < |a| ensures a[p].name == b[p].name { assert NameList(a)[p] == NameList(b)[p]; }
    }
  }

  lemma CutsLong(cuts: seq<nat>, merged: seq<Properties>, literals: seq<Properties>)
    requires Cuts(cuts, merged, literals)
    ensures |cuts| == |merged| + 1
  {
  }

  predicate SameRun(m: Properties, literals: seq<Properties>, lo: nat, hi: nat) {
    lo < hi <= |literals| && forall j | lo <= j < hi :: NameList(literals[j]) == NameList(m)
  }

  lemma InRun(cuts: seq<nat>, merged: seq<Properties>, literals: seq<Properties>, k: nat)
    requires Cuts(cuts, merged, literals) && k < |merged| && |cuts| == |merged| + 1
    ensures SameRun(merged[k], literals, cuts[k], cuts[k + 1])
  {
    assert StandsFor(merged[k], literals, cuts[k], cuts[k + 1]);
    forall j | cuts[k] <= j < cuts[k + 1] ensures NameList(literals[j]) == NameList(merged[k]) {
      NamesAre(literals[j], merged[k]);
    }
  }

  // What extract returns: the alternatives that are no structure literals, all of them
  // and in their order, and then literals that stand for the others, run by run in
  // their order: of all those in a run the property names are the same, and of no two
  // neighbours that are left.
  lemma ExtractedInOrder(items: seq<TypeExpr>, types: seq<TypeExpr>)
    returns (n: nat, literals: seq<Properties>, merged: seq<Properties>, cuts: seq<nat>)
    requires types == NonLiterals(items) + AsTypes(Merged(LiteralsIn(items)))
    ensures n <= |types| && Picks(items, types[..n], false)
    ensures Picks(items, AsTypes(literals), true)
    ensures types[n..] == AsTypes(merged) && Cuts(cuts, merged, literals) && |cuts| == |merged| + 1
    ensures forall k | 0 <= k < |merged| :: SameRun(merged[k], literals, cuts[k], cuts[k + 1])
    ensures forall k | 0 <= k < |merged| - 1 :: NameList(merged[k]) != NameList(merged[k + 1])
  {
    hide PicksAt, Cuts, Merged, NonLiterals, LiteralsIn, NameList, SameRun;
    TypesPicked(items);
    LiteralsPicked(items);
    n, literals := |NonLiterals(items)|, LiteralsIn(items);
    merged := Merged(literals);
    cuts := MergesRuns(literals);
    assert types[..n] == NonLiterals(items) && types[n..] == AsTypes(merged);
    assert |cuts| == |merged| + 1 by { CutsLong(cuts, merged, literals); }
    NothingLeftToMerge(literals);
    forall k | 0 <= k < |merged| - 1 ensures NameList(merged[k]) != NameList(merged[k + 1]) {
      NamesAre(merged[k], merged[k + 1]);
    }
    forall k | 0 <= k < |merged| ensures SameRun(merged[k], literals, cuts[k], cuts[k + 1]) {
      InRun(cuts, merged, literals, k);
    }
  }
}
