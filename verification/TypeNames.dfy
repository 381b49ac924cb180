// lspgen/lspgen.cpp, cppTypeName and isStringType: the lookups behind the C++ name
// of a type. The text of the name is not modelled, only whether there is one.
module TypeNames {
  import opened Wrappers
  import opened MetaModel

  // How generation fails: an exception, or a recursion without end.
  datatype Stop = Throws | Endless

  // ---------------------------------------------------------------- isStringType

  const STRING_KINDS: set<string> := {"string", "URI", "DocumentUri", "RegExp"}

  // The answer, if it takes at most so many steps from an alias to its type.
  function StringTypeIn(defs: Definitions, t: TypeExpr, steps: nat): Result<bool, Stop>
    decreases steps
  {
    match t
    case Base(kind) => Success(kind in STRING_KINDS)
    case Reference(name) =>
      if name !in defs then Failure(Throws)
      else if !defs[name].TypeAlias? then Success(false)
      else if steps == 0 then Failure(Endless)
      else StringTypeIn(defs, defs[name].target, steps - 1)
    case _ => Success(false)
  }

  // The source recurses without a bound. After as many steps as there are
  // definitions it has come back to an alias, and never ends.
  method IsStringType(defs: Definitions, t: TypeExpr, steps: nat) returns (answer: Result<bool, Stop>)
    ensures answer == StringTypeIn(defs, t, steps)
    decreases steps
  {
    if t.Base? {
      return Success(t.kind == "string" || t.kind == "URI" || t.kind == "DocumentUri" || t.kind == "RegExp");
    } else if t.Reference? {
      if t.name !in defs { return Failure(Throws); }
      if defs[t.name].TypeAlias? {
        if steps == 0 { return Failure(Endless); }
        answer := IsStringType(defs, defs[t.name].target, steps - 1);
        return;
      }
    }
    answer := Success(false);
  }

  predicate IsAlias(defs: Definitions, t: TypeExpr) { t.Reference? && t.name in defs && defs[t.name].TypeAlias? }

  // Where the recursion is after n steps, if it gets that far.
  function After(defs: Definitions, t: TypeExpr, n: nat): Option<TypeExpr>
    decreases n
  {
    if n == 0 then Some(t)
    else if IsAlias(defs, t) then After(defs, defs[t.name].target, n - 1)
    else None
  }

  // The aliases lead to a name that is not defined, or around in a circle.
  ghost predicate Missing(defs: Definitions, t: TypeExpr) {
    exists n: nat :: var u := After(defs, t, n); u.Some? && u.value.Reference? && u.value.name !in defs
  }

  ghost predicate Circular(defs: Definitions, t: TypeExpr) {
    exists i: nat, j: nat | i < j :: After(defs, t, i).Some? && After(defs, t, i) == After(defs, t, j)
  }

  lemma {:induction false} Skip(defs: Definitions, t: TypeExpr, i: nat, n: nat)
    requires After(defs, t, i).Some?
    ensures StringTypeIn(defs, t, i + n) == StringTypeIn(defs, After(defs, t, i).value, n)
    ensures After(defs, t, i + n) == After(defs, After(defs, t, i).value, n)
    decreases i
  {
    if i > 0 { Skip(defs, defs[t.name].target, i - 1, n); }
  }

  lemma {:induction false} FewerSteps(defs: Definitions, t: TypeExpr, m: nat, n: nat)
    requires m <= n && StringTypeIn(defs, t, m) != Failure(Endless)
    ensures StringTypeIn(defs, t, n) == StringTypeIn(defs, t, m)
    decreases m
  {
    if IsAlias(defs, t) { FewerSteps(defs, defs[t.name].target, m - 1, n - 1); }
  }

  // A circle has no answer, however long one waits.
  lemma {:induction false} CircleEndless(defs: Definitions, u: TypeExpr, period: nat, n: nat)
    requires period > 0 && After(defs, u, period) == Some(u)
    ensures StringTypeIn(defs, u, n) == Failure(Endless)
    decreases n
  {
    if n >= period {
      CircleEndless(defs, u, period, n - period);
      Skip(defs, u, period, n - period);
    } else if StringTypeIn(defs, u, n) != Failure(Endless) {
      FewerSteps(defs, u, n, period);
      Skip(defs, u, period, 0);
      CircleStart(defs, u, period);
    }
  }

  lemma CircleStart(defs: Definitions, u: TypeExpr, period: nat)
    requires period > 0 && After(defs, u, period) == Some(u)
    ensures StringTypeIn(defs, u, 0) == Failure(Endless)
  {
  }

  // Without an end in n steps the recursion went through n + 1 aliases.
  lemma {:induction false} NoEnd(defs: Definitions, t: TypeExpr, n: nat)
    requires StringTypeIn(defs, t, n) == Failure(Endless)
    ensures forall i | 0 <= i <= n :: After(defs, t, i).Some? && IsAlias(defs, After(defs, t, i).value)
    decreases n
  {
    if n > 0 {
      var u := defs[t.name].target;
      NoEnd(defs, u, n - 1);
      forall i | 0 <= i <= n ensures After(defs, t, i).Some? && IsAlias(defs, After(defs, t, i).value) {
        if i == 0 {
          assert After(defs, t, i) == Some(t);
        } else {
          assert After(defs, u, i - 1).Some? && IsAlias(defs, After(defs, u, i - 1).value);
          assert After(defs, t, i) == After(defs, u, i - 1);
        }
      }
    }
  }

  lemma {:induction false} Pigeonhole(names: seq<string>, holes: set<string>) returns (i: nat, j: nat)
    requires |names| > |holes| && forall n | n in names :: n in holes
    ensures i < j < |names| && names[i] == names[j]
  {
    var last := names[|names| - 1];
    var rest := names[..|names| - 1];
    if last in rest {
      i, j :| 0 <= i < |rest| && rest[i] == last && j == |names| - 1;
    } else {
      forall n | n in rest ensures n in holes - {last} { assert n in names; }
      assert last in names;
      i, j := Pigeonhole(rest, holes - {last});
    }
  }

  lemma NoEndWhy(defs: Definitions, t: TypeExpr)
    requires StringTypeIn(defs, t, |defs|) == Failure(Endless)
    ensures Circular(defs, t)
  {
    NoEnd(defs, t, |defs|);
    var names := seq(|defs| + 1, i requires 0 <= i < |defs| + 1 => After(defs, t, i).value.name);
    assert |defs.Keys| == |defs|;
    var i, j := Pigeonhole(names, defs.Keys);
    assert After(defs, t, i) == After(defs, t, j);
  }

  lemma {:induction false} ThrowsWhy(defs: Definitions, t: TypeExpr, n: nat) returns (k: nat)
    requires StringTypeIn(defs, t, n) == Failure(Throws)
    ensures var u := After(defs, t, k); u.Some? && u.value.Reference? && u.value.name !in defs
    decreases n
  {
    if IsAlias(defs, t) {
      k := ThrowsWhy(defs, defs[t.name].target, n - 1);
      k := k + 1;
    } else {
      k := 0;
    }
  }

  lemma CircleNeverEnds(defs: Definitions, t: TypeExpr, i: nat, j: nat, m: nat)
    requires i < j && After(defs, t, i).Some? && After(defs, t, i) == After(defs, t, j)
    ensures StringTypeIn(defs, t, m) == Failure(Endless)
  {
    if StringTypeIn(defs, t, m) != Failure(Endless) {
      FewerSteps(defs, t, m, m + i);
      Skip(defs, t, i, m);
      Skip(defs, t, i, j - i);
      CircleEndless(defs, After(defs, t, i).value, j - i, m);
    }
  }

  lemma MissingThrows(defs: Definitions, t: TypeExpr, n: nat)
    requires var u := After(defs, t, n); u.Some? && u.value.Reference? && u.value.name !in defs
    ensures StringTypeIn(defs, t, |defs|) == Failure(Throws)
  {
    Skip(defs, t, n, 0);
    assert StringTypeIn(defs, t, n) == Failure(Throws);
    if StringTypeIn(defs, t, |defs|) == Failure(Endless) {
      NoEndWhy(defs, t);
      var i: nat, j: nat :| i < j && After(defs, t, i).Some? && After(defs, t, i) == After(defs, t, j);
      CircleNeverEnds(defs, t, i, j, n);
    } else if n <= |defs| {
      FewerSteps(defs, t, n, |defs|);
    } else {
      FewerSteps(defs, t, |defs|, n);
    }
  }

  // isStringType throws exactly when the aliases lead to a missing name, recurses
  // for ever exactly when they go round in a circle, and answers otherwise; to
  // tell which takes no more steps than there are definitions.
  lemma StringTypeEnds(defs: Definitions, t: TypeExpr)
    ensures var a := StringTypeIn(defs, t, |defs|);
      && (a == Failure(Throws) <==> Missing(defs, t))
      && (a == Failure(Endless) <==> Circular(defs, t))
      && (a == Failure(Endless) <==> forall n: nat :: StringTypeIn(defs, t, n) == Failure(Endless))
  {
    var a := StringTypeIn(defs, t, |defs|);
    if Missing(defs, t) {
      var n: nat :| var u := After(defs, t, n); u.Some? && u.value.Reference? && u.value.name !in defs;
      MissingThrows(defs, t, n);
    }
    if a == Failure(Throws) { var k := ThrowsWhy(defs, t, |defs|); }
    if a == Failure(Endless) { NoEndWhy(defs, t); }
    if Circular(defs, t) {
      var i: nat, j: nat :| i < j && After(defs, t, i).Some? && After(defs, t, i) == After(defs, t, j);
      forall m: nat ensures StringTypeIn(defs, t, m) == Failure(Endless) { CircleNeverEnds(defs, t, i, j, m); }
    }
  }

  // The answer is that of the type the aliases lead to: true for the four base types
  // that are strings, false for any other type.
  lemma {:induction false} StringTypeAnswer(defs: Definitions, t: TypeExpr, n: nat)
    requires After(defs, t, n).Some? && !IsAlias(defs, After(defs, t, n).value)
    requires var u := After(defs, t, n).value; u.Reference? ==> u.name in defs
    ensures StringTypeIn(defs, t, |defs|) ==
      var u := After(defs, t, n).value;
      Success(u == Base("string") || u == Base("URI") || u == Base("DocumentUri") || u == Base("RegExp"))
  {
    Skip(defs, t, n, 0);
    var a := StringTypeIn(defs, t, |defs|);
    if a == Failure(Endless) {
      StringTypeEnds(defs, t);
    } else if n <= |defs| {
      FewerSteps(defs, t, n, |defs|);
    } else {
      FewerSteps(defs, t, |defs|, n);
    }
  }

  // ---------------------------------------------------------------- cppTypeName

  // What keeps a type from having a name. An intersection is always LSPObject;
  // a union is never empty (OrType.Extract).
  function NameStop(defs: Definitions, t: TypeExpr): Option<Stop> {
    match t
    case Reference(name) => if name in defs then None else Some(Throws)
    case ArrayType(element) => if element == Reference("LSPAny") then None else NameStop(defs, element)
    case MapType(key, value) =>
      var answer := StringTypeIn(defs, key, |defs|);
      if answer.Failure? then Some(answer.error)
      else if NameStop(defs, key).Some? then NameStop(defs, key)
      else NameStop(defs, value)
    case Or(items) => if items == [] then Some(Throws) else NamesStop(defs, items)
    case Tuple(items) => NamesStop(defs, items)
    case _ => None
  }

  // The first of a list decides.
  function NamesStop(defs: Definitions, items: seq<TypeExpr>): Option<Stop> {
    if items == [] then None
    else if NameStop(defs, items[0]).Some? then NameStop(defs, items[0])
    else NamesStop(defs, items[1..])
  }

  predicate Nameable(defs: Definitions, t: TypeExpr) { NameStop(defs, t).None? }

  // The first null of a union is skipped.
  method CppTypeName(defs: Definitions, t: TypeExpr) returns (stop: Option<Stop>)
    ensures stop == NameStop(defs, t)
  {
    match t {
      case Reference(name) =>
        stop := if name in defs then None else Some(Throws);
      case ArrayType(element) =>
        if element == Reference("LSPAny") { return None; }
        stop := CppTypeName(defs, element);
      case MapType(key, value) =>
        var answer := IsStringType(defs, key, |defs|);
        if answer.Failure? { return Some(answer.error); }
        stop := CppTypeName(defs, key);
        if stop.Some? { return; }
        stop := CppTypeName(defs, value);
      case Or(items) =>
        if items == [] { return Some(Throws); }
        var nullType: nat := |items|;
        assert items[0..] == items;
        for i := 0 to |items|
          invariant NamesStop(defs, items) == NamesStop(defs, items[i..])
        {
          assert items[i..][1..] == items[i + 1..];
          if items[i] == Base("null") && nullType == |items| {
            nullType := i;
          } else {
            stop := CppTypeName(defs, items[i]);
            if stop.Some? { return; }
          }
        }
        stop := None;
      case Tuple(items) =>
        assert items[0..] == items;
        for i := 0 to |items|
          invariant NamesStop(defs, items) == NamesStop(defs, items[i..])
        {
          assert items[i..][1..] == items[i + 1..];
          stop := CppTypeName(defs, items[i]);
          if stop.Some? { return; }
        }
        stop := None;
      case _ =>
        stop := None;
    }
  }

  // ---------------------------------------------------------------- closed models

  lemma {:induction false} StaysClosed(defs: Definitions, t: TypeExpr, n: nat)
    requires Closed(defs) && Refs(t) <= defs.Keys && After(defs, t, n).Some?
    ensures Refs(After(defs, t, n).value) <= defs.Keys
    decreases n
  {
    if n > 0 { StaysClosed(defs, defs[t.name].target, n - 1); }
  }

  // No reference leads out of the model.
  ghost predicate Closed(defs: Definitions) { forall a | a in defs :: DefinitionRefs(defs[a]) <= defs.Keys }

  // In a closed model only a circle of aliases keeps isStringType from answering.
  lemma ClosedEnds(defs: Definitions, t: TypeExpr)
    requires Closed(defs) && Refs(t) <= defs.Keys
    ensures StringTypeIn(defs, t, |defs|).Failure? <==> Circular(defs, t)
  {
    StringTypeEnds(defs, t);
    var a := StringTypeIn(defs, t, |defs|);
    if a.Failure? {
      match a.error {
        case Throws => assert a == Failure(Throws);
        case Endless => assert a == Failure(Endless);
      }
    }
    if Missing(defs, t) {
      var n: nat :| var u := After(defs, t, n); u.Some? && u.value.Reference? && u.value.name !in defs;
      ReferenceRefs(After(defs, t, n).value);
      StaysClosed(defs, t, n);
    }
  }

  lemma ReferenceRefs(t: TypeExpr)
    requires t.Reference?
    ensures t.name in Refs(t)
  {
  }

  // The key types of the maps whose name is asked for.
  function KeysIn(t: TypeExpr): set<TypeExpr> {
    match t
    case ArrayType(element) => if element == Reference("LSPAny") then {} else KeysIn(element)
    case MapType(key, value) => {key} + KeysIn(key) + KeysIn(value)
    case Or(items) => KeysInAll(items)
    case Tuple(items) => KeysInAll(items)
    case _ => {}
  }

  function KeysInAll(items: seq<TypeExpr>): set<TypeExpr> {
    if items == [] then {} else KeysIn(items[0]) + KeysInAll(items[1..])
  }

  predicate NoEmptyUnion(t: TypeExpr) {
    match t
    case ArrayType(element) => NoEmptyUnion(element)
    case MapType(key, value) => NoEmptyUnion(key) && NoEmptyUnion(value)
    case Or(items) => items != [] && NoEmptyUnions(items)
    case Tuple(items) => NoEmptyUnions(items)
    case _ => true
  }

  predicate NoEmptyUnions(items: seq<TypeExpr>) {
    items == [] || (NoEmptyUnion(items[0]) && NoEmptyUnions(items[1..]))
  }

  ghost predicate NoCircle(defs: Definitions, keys: set<TypeExpr>) { forall k | k in keys :: !Circular(defs, k) }

  // In a closed model a type has a name exactly when no key of a map in it goes
  // round in a circle.
  lemma {:induction false} ClosedNameable(defs: Definitions, t: TypeExpr)
    requires Closed(defs) && Refs(t) <= defs.Keys && NoEmptyUnion(t)
    ensures Nameable(defs, t) <==> NoCircle(defs, KeysIn(t))
    decreases t
  {
    hide Closed, Circular, StringTypeIn;
    match t {
      case ArrayType(element) => ClosedNameable(defs, element);
      case MapType(key, value) =>
        ClosedEnds(defs, key);
        ClosedNameable(defs, key);
        ClosedNameable(defs, value);
      case Or(items) => ClosedNameableAll(defs, items);
      case Tuple(items) => ClosedNameableAll(defs, items);
      case _ =>
    }
  }

  lemma {:induction false} ClosedNameableAll(defs: Definitions, items: seq<TypeExpr>)
    requires Closed(defs) && ListRefs(items) <= defs.Keys && NoEmptyUnions(items)
    ensures NamesStop(defs, items).None? <==> NoCircle(defs, KeysInAll(items))
    decreases items
  {
    hide Closed, Circular, StringTypeIn, NameStop;
    if items != [] {
      ClosedNameable(defs, items[0]);
      ClosedNameableAll(defs, items[1..]);
    }
  }
}
