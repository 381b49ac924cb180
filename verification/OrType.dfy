// lspgen/lspgen.cpp, OrType::extract: the alternatives of a union, with runs of
// structure literals that have the same property names merged into one.
module OrType {
  import opened Wrappers
  import opened MetaModel

  type Properties = seq<Property>

  predicate SameNames(a: Properties, b: Properties) {
    |a| == |b| && forall p | 0 <= p < |a| :: a[p].name == b[p].name
  }

  function Joined(a: Properties, b: Properties): Properties
    requires SameNames(a, b)
  {
    seq(|a|, p requires 0 <= p < |a| => a[p].(isOptional := a[p].isOptional || b[p].isOptional))
  }

  function Merged(l: seq<Properties>): seq<Properties>
    decreases |l|
  {
    if |l| < 2 then l
    else if SameNames(l[0], l[1]) then Merged([Joined(l[0], l[1])] + l[2..])
    else [l[0]] + Merged(l[1..])
  }

  function NonLiterals(items: seq<TypeExpr>): seq<TypeExpr> {
    if items == [] then []
    else (if items[0].StructureLiteral? then [] else [items[0]]) + NonLiterals(items[1..])
  }

  function LiteralsIn(items: seq<TypeExpr>): seq<Properties> {
    if items == [] then []
    else (if items[0].StructureLiteral? then [items[0].properties] else []) + LiteralsIn(items[1..])
  }

  // ---------------------------------------------------------------- the extraction

  method Extract(items: seq<TypeExpr>) returns (typeList: Option<seq<TypeExpr>>)
    ensures typeList == None <==> items == []
    ensures typeList.Some? ==> typeList.value == NonLiterals(items) + AsTypes(Merged(LiteralsIn(items)))
  {
    hide Merged, SameNames, NonLiterals, LiteralsIn;
    var types, structureLiterals := Separated(items);
    MergedEmpty(structureLiterals);
    structureLiterals := MergeLiterals(structureLiterals);
    var i := 0;
    ghost var before := types;
    while i < |structureLiterals|
      invariant i <= |structureLiterals|
      invariant types == before + AsTypes(structureLiterals[..i])
    {
      types := types + [StructureLiteral(structureLiterals[i])];
      i := i + 1;
    }
    assert structureLiterals[..i] == structureLiterals;
    if types == [] { return None; }
    typeList := Some(types);
  }

  function AsTypes(literals: seq<Properties>): seq<TypeExpr> {
    seq(|literals|, i requires 0 <= i < |literals| => StructureLiteral(literals[i]))
  }

  method Separated(items: seq<TypeExpr>) returns (types: seq<TypeExpr>, structureLiterals: seq<Properties>)
    ensures types == NonLiterals(items) && structureLiterals == LiteralsIn(items)
    ensures items == [] <==> types == [] && structureLiterals == []
  {
    hide NonLiterals, LiteralsIn;
    types, structureLiterals := [], [];
    assert items[0..] == items;
    NothingSeparated(items);
    for i := 0 to |items|
      invariant types + NonLiterals(items[i..]) == NonLiterals(items)
      invariant structureLiterals + LiteralsIn(items[i..]) == LiteralsIn(items)
      invariant i > 0 <==> types != [] || structureLiterals != []
    {
      SeparatedStep(items, i, types, structureLiterals);
      if items[i].StructureLiteral? {
        structureLiterals := structureLiterals + [items[i].properties];
      } else {
        types := types + [items[i]];
      }
    }
    assert items[|items|..] == [];
    assert types + [] == types && structureLiterals + [] == structureLiterals;
  }

  lemma NothingSeparated(items: seq<TypeExpr>)
    ensures NonLiterals([]) == [] && LiteralsIn([]) == []
    ensures [] + NonLiterals(items) == NonLiterals(items) && [] + LiteralsIn(items) == LiteralsIn(items)
  {
  }

  lemma SeparatedStep(items: seq<TypeExpr>, i: nat, types: seq<TypeExpr>, literals: seq<Properties>)
    requires i < |items|
    ensures var rest := items[i + 1..];
      if items[i].StructureLiteral? then
        && NonLiterals(items[i..]) == NonLiterals(rest)
        && literals + LiteralsIn(items[i..]) == literals + [items[i].properties] + LiteralsIn(rest)
      else
        && LiteralsIn(items[i..]) == LiteralsIn(rest)
        && types + NonLiterals(items[i..]) == types + [items[i]] + NonLiterals(rest)
  {
    assert items[i..][1..] == items[i + 1..];
    assert [] + NonLiterals(items[i + 1..]) == NonLiterals(items[i + 1..]);
    assert [] + LiteralsIn(items[i + 1..]) == LiteralsIn(items[i + 1..]);
  }

  // Erases from the vector while walking it.
  method MergeLiterals(literals: seq<Properties>) returns (merged: seq<Properties>)
    ensures merged == Merged(literals)
  {
    hide Merged, SameNames, Joined;
    merged := literals;
    var i := 1;
    if literals != [] {
      assert literals[..0] + Merged(literals[0..]) == Merged(literals) by { assert literals[0..] == literals; }
    }
    while i < |merged|
      invariant 1 <= i && (i <= |merged| || merged == literals == [])
      invariant merged != [] ==> merged[..i - 1] + Merged(merged[i - 1..]) == Merged(literals)
      decreases |merged| - i
    {
      ghost var front, l := merged[..i - 1], merged[i - 1..];
      assert l[0] == merged[i - 1] && l[1] == merged[i] && l[2..] == merged[i + 1..] && l[1..] == merged[i..];
      MergedStep(l);
      var propertiesEqual := EqualNames(merged[i - 1], merged[i]);
      if propertiesEqual {
        var first := JoinInto(merged[i - 1], merged[i]);
        merged := merged[i - 1 := first];
        merged := merged[..i] + merged[i + 1..];
        assert merged[..i - 1] == front && merged[i - 1..] == [first] + l[2..];
      } else {
        assert merged[..i] == front + [l[0]];
        i := i + 1;
      }
    }
    if merged != [] {
      MergedStep(merged[i - 1..]);
    } else {
      MergedStep(literals);
    }
  }

  lemma MergedStep(l: seq<Properties>)
    ensures |l| < 2 ==> Merged(l) == l
    ensures |l| >= 2 && SameNames(l[0], l[1]) ==> Merged(l) == Merged([Joined(l[0], l[1])] + l[2..])
    ensures |l| >= 2 && !SameNames(l[0], l[1]) ==> Merged(l) == [l[0]] + Merged(l[1..])
  {
  }

  method EqualNames(first: Properties, second: Properties) returns (equal: bool)
    ensures equal <==> SameNames(first, second)
  {
    if |first| != |second| { return false; }
    for p := 0 to |first|
      invariant forall q | 0 <= q < p :: first[q].name == second[q].name
    {
      if first[p].name != second[p].name { return false; }
    }
    equal := true;
  }

  method JoinInto(first: Properties, second: Properties) returns (joined: Properties)
    requires SameNames(first, second)
    ensures joined == Joined(first, second)
  {
    joined := first;
    for p := 0 to |first|
      invariant |joined| == |first|
      invariant forall q | 0 <= q < p :: joined[q] == Joined(first, second)[q]
      invariant forall q | p <= q < |first| :: joined[q] == first[q]
    {
      joined := joined[p := joined[p].(isOptional := joined[p].isOptional || second[p].isOptional)];
    }
  }

  // ---------------------------------------------------------------- what merging means

  lemma {:induction false} MergedEmpty(l: seq<Properties>)
    ensures Merged(l) == [] <==> l == []
    ensures l != [] ==> SameNames(Merged(l)[0], l[0])
    decreases |l|
  {
    if |l| >= 2 && SameNames(l[0], l[1]) { MergedEmpty([Joined(l[0], l[1])] + l[2..]); }
  }

  // No two neighbours could still be merged.
  lemma {:induction false} NothingLeftToMerge(l: seq<Properties>)
    ensures var m := Merged(l); forall k | 0 <= k < |m| - 1 :: !SameNames(m[k], m[k + 1])
    decreases |l|
  {
    hide Merged;
    MergedStep(l);
    if |l| >= 2 {
      if SameNames(l[0], l[1]) {
        NothingLeftToMerge([Joined(l[0], l[1])] + l[2..]);
      } else {
        NothingLeftToMerge(l[1..]);
        MergedEmpty(l[1..]);
        var m := Merged(l);
        forall k | 0 <= k < |m| - 1 ensures !SameNames(m[k], m[k + 1]) {
          if k > 0 { assert !SameNames(Merged(l[1..])[k - 1], Merged(l[1..])[k]); }
        }
      }
    }
  }

  // m stands for the run l[lo..hi]: the same names throughout, the types of the
  // first, and a property is optional when it is so anywhere in the run.
  ghost predicate StandsFor(m: Properties, l: seq<Properties>, lo: nat, hi: nat) {
    && lo < hi <= |l|
    && (forall j | lo <= j < hi :: SameNames(m, l[j]))
    && forall p | 0 <= p < |m| ::
      && m[p].typ == l[lo][p].typ
      && (m[p].isOptional <==> exists j | lo <= j < hi :: p < |l[j]| && l[j][p].isOptional)
  }

  ghost predicate Cuts(cuts: seq<nat>, m: seq<Properties>, l: seq<Properties>) {
    && |cuts| == |m| + 1 && cuts[0] == 0 && cuts[|m|] == |l|
    && forall k | 0 <= k < |m| :: StandsFor(m[k], l, cuts[k], cuts[k + 1])
  }

  // The merged literals stand for consecutive runs that cover all the literals.
  lemma {:induction false} MergesRuns(l: seq<Properties>) returns (cuts: seq<nat>)
    ensures Cuts(cuts, Merged(l), l)
    decreases |l|
  {
    hide Merged, Cuts, SameNames, Joined;
    MergedStep(l);
    if |l| < 2 {
      cuts := SingleCuts(l);
    } else if SameNames(l[0], l[1]) {
      var cuts' := MergesRuns([Joined(l[0], l[1])] + l[2..]);
      MergedEmpty(l);
      cuts := JoinedCuts(l, Merged(l), cuts');
    } else {
      var cuts' := MergesRuns(l[1..]);
      cuts := NextCuts(l, Merged(l[1..]), cuts');
    }
  }

  lemma SingleCuts(l: seq<Properties>) returns (cuts: seq<nat>)
    requires |l| < 2
    ensures Cuts(cuts, l, l)
  {
    cuts := if l == [] then [0] else [0, 1];
  }

  lemma JoinedCuts(l: seq<Properties>, m: seq<Properties>, cuts': seq<nat>) returns (cuts: seq<nat>)
    requires |l| >= 2 && SameNames(l[0], l[1]) && m != [] && Cuts(cuts', m, [Joined(l[0], l[1])] + l[2..])
    ensures Cuts(cuts, m, l)
  {
    hide StandsFor, SameNames, Joined;
    var l' := [Joined(l[0], l[1])] + l[2..];
    cuts := [0] + seq(|m|, k requires 0 <= k < |m| => cuts'[k + 1] + 1);
    AfterFirst(cuts', m, l');
    assert forall j | 1 <= j < |l'| :: l'[j] == l[j + 1];
    forall k | 0 <= k < |m| ensures StandsFor(m[k], l, cuts[k], cuts[k + 1]) {
      assert StandsFor(m[k], l', cuts'[k], cuts'[k + 1]);
      if k == 0 { JoinedRun(m[0], l, cuts'[1]); } else { LaterRun(m[k], l, l', cuts'[k], cuts'[k + 1]); }
    }
  }

  lemma AfterFirst(cuts: seq<nat>, m: seq<Properties>, l: seq<Properties>)
    requires Cuts(cuts, m, l)
    ensures forall k | 0 < k <= |m| :: cuts[k] > 0
  {
    hide SameNames;
    forall k | 0 < k <= |m| ensures cuts[k] > 0 { assert StandsFor(m[k - 1], l, cuts[k - 1], cuts[k]); }
  }

  lemma NextCuts(l: seq<Properties>, m: seq<Properties>, cuts': seq<nat>) returns (cuts: seq<nat>)
    requires l != [] && Cuts(cuts', m, l[1..])
    ensures Cuts(cuts, [l[0]] + m, l)
  {
    hide StandsFor, SameNames;
    var n := [l[0]] + m;
    cuts := [0] + seq(|n|, k requires 0 <= k < |n| => cuts'[k] + 1);
    forall k | 0 <= k < |n| ensures StandsFor(n[k], l, cuts[k], cuts[k + 1]) {
      if k > 0 {
        assert StandsFor(m[k - 1], l[1..], cuts'[k - 1], cuts'[k]);
        NextRun(m[k - 1], l, cuts'[k - 1], cuts'[k]);
      } else {
        FirstRun(l);
      }
    }
  }

  lemma FirstRun(l: seq<Properties>)
    requires l != []
    ensures StandsFor(l[0], l, 0, 1)
  {
  }

  lemma JoinedRun(m: Properties, l: seq<Properties>, hi: nat)
    requires |l| >= 2 && SameNames(l[0], l[1]) && StandsFor(m, [Joined(l[0], l[1])] + l[2..], 0, hi)
    ensures StandsFor(m, l, 0, hi + 1)
  {
    var l' := [Joined(l[0], l[1])] + l[2..];
    assert forall j | 1 <= j < |l'| :: l'[j] == l[j + 1];
    assert SameNames(m, l'[0]);
    forall j | 0 <= j < hi + 1 ensures SameNames(m, l[j]) {
      if j >= 2 { assert SameNames(m, l'[j - 1]); }
    }
    forall p | 0 <= p < |m|
      ensures m[p].typ == l[0][p].typ
      ensures m[p].isOptional <==> exists j | 0 <= j < hi + 1 :: p < |l[j]| && l[j][p].isOptional
    {
      if m[p].isOptional {
        var j :| 0 <= j < hi && p < |l'[j]| && l'[j][p].isOptional;
        assert if j > 0 then l[j + 1][p].isOptional else l[0][p].isOptional || l[1][p].isOptional;
      } else {
        assert !l'[0][p].isOptional;
        forall j | 0 <= j < hi + 1 ensures !(p < |l[j]| && l[j][p].isOptional) {
          if j >= 2 { assert l[j] == l'[j - 1]; }
        }
      }
    }
  }

  lemma LaterRun(m: Properties, l: seq<Properties>, l': seq<Properties>, lo: nat, hi: nat)
    requires |l| == |l'| + 1 && 1 <= lo && (forall j | 1 <= j < |l'| :: l'[j] == l[j + 1]) && StandsFor(m, l', lo, hi)
    ensures StandsFor(m, l, lo + 1, hi + 1)
  {
    hide SameNames;
    forall j | lo + 1 <= j < hi + 1 ensures l[j] == l'[j - 1] && SameNames(m, l[j]) {}
    forall p | 0 <= p < |m|
      ensures m[p].isOptional <==> exists j | lo + 1 <= j < hi + 1 :: p < |l[j]| && l[j][p].isOptional
    {
      if m[p].isOptional {
        var j :| lo <= j < hi && p < |l'[j]| && l'[j][p].isOptional;
        assert l[j + 1][p].isOptional;
      }
    }
  }

  lemma NextRun(m: Properties, l: seq<Properties>, lo: nat, hi: nat)
    requires l != [] && StandsFor(m, l[1..], lo, hi)
    ensures StandsFor(m, l, lo + 1, hi + 1)
  {
    hide SameNames;
    var l' := l[1..];
    forall j | lo + 1 <= j < hi + 1 ensures l[j] == l'[j - 1] && SameNames(m, l[j]) {}
    forall p | 0 <= p < |m|
      ensures m[p].isOptional <==> exists j | lo + 1 <= j < hi + 1 :: p < |l[j]| && l[j][p].isOptional
    {
      if m[p].isOptional {
        var j :| lo <= j < hi && p < |l'[j]| && l'[j][p].isOptional;
        assert l[j + 1][p].isOptional;
      }
    }
  }

  // The properties an object must have.
  function Required(m: Properties): set<string> { set p | p in m && !p.isOptional :: p.name }

  // Whatever one of the literals accepted, some merged literal accepts.
  lemma StillAccepted(l: seq<Properties>, j: nat) returns (k: nat)
    requires j < |l|
    ensures k < |Merged(l)| && Required(Merged(l)[k]) <= Required(l[j])
  {
    hide Merged, SameNames;
    var cuts := MergesRuns(l);
    var m := Merged(l);
    k := 0;
    while k < |m| && cuts[k + 1] <= j
      invariant k <= |m| && cuts[k] <= j
    {
      k := k + 1;
    }
    RequiredLess(m[k], l, cuts[k], cuts[k + 1], j);
  }

  lemma RequiredLess(m: Properties, l: seq<Properties>, lo: nat, hi: nat, j: nat)
    requires StandsFor(m, l, lo, hi) && lo <= j < hi
    ensures Required(m) <= Required(l[j])
  {
    assert SameNames(m, l[j]);
    forall n | n in Required(m) ensures n in Required(l[j]) {
      var p :| 0 <= p < |m| && !m[p].isOptional && m[p].name == n;
      assert l[j][p] in l[j] && !l[j][p].isOptional;
    }
  }
}
