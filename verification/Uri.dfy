// lsp/uri.cpp: a URI is one packed byte buffer with five 16-bit lengths, edited
// in place (RFC 3986).
module Uri {
  import opened Wrappers
  import opened Text
  import opened UriCodec

  // ---------------------------------------------------------------- components

  // What the buffer stands for.
  datatype Components = Components(
    scheme: string,
    authority: Option<string>,
    path: string,
    query: Option<string>,
    fragment: Option<string>)

  const NO_URI := Components("", None, "", None, None)

  const U16: int := 0x1_0000

  function OrEmpty(o: Option<string>): string { if o.Some? then o.value else "" }

  // Every length fits its 16-bit field.
  predicate Fits(c: Components) {
    && |c.scheme| < U16 && |OrEmpty(c.authority)| < U16 && |c.path| < U16
    && |OrEmpty(c.query)| < U16 && |OrEmpty(c.fragment)| < U16
  }

  function Packed(c: Components): string {
    c.scheme + OrEmpty(c.authority) + c.path + OrEmpty(c.query) + OrEmpty(c.fragment)
  }

  function Lower(s: string): (l: string)
    ensures |l| == |s|
  {
    seq(|s|, i requires 0 <= i < |s| => ToLower(s[i]))
  }

  // The lengths and flags of the fields.
  datatype Sizes = Sizes(
    scheme: nat, authority: nat, path: nat, query: nat, fragment: nat,
    hasAuthority: bool, hasQuery: bool, hasFragment: bool)
  {
    function Total(): nat { scheme + authority + path + query + fragment }
  }

  function SizesOf(c: Components): Sizes {
    Sizes(|c.scheme|, |OrEmpty(c.authority)|, |c.path|, |OrEmpty(c.query)|, |OrEmpty(c.fragment)|,
          c.authority.Some?, c.query.Some?, c.fragment.Some?)
  }

  // The buffer is the five components one after the other, the lengths are
  // theirs, and an absent component has length 0.
  predicate Represents(data: string, fields: Sizes, c: Components) {
    Fits(c) && data == Packed(c) && fields == SizesOf(c)
  }

  // Normalized, or in lower case, as far as a 16-bit length counts.
  function Normalized16(s: string): string { Normalized(s[..|s| % U16]) + s[|s| % U16..] }

  function Lower16(s: string): string { Lower(s[..|s| % U16]) + s[|s| % U16..] }

  lemma Fitting(s: string)
    ensures |Normalized16(s)| == |Lower16(s)| == |s| && (|s| % U16 == |s| <==> |s| < U16)
    ensures |s| < U16 ==> Normalized16(s) == Normalized(s) && Lower16(s) == Lower(s)
  {
    hide Normalized;
    SmallMod(|s|);
    if |s| < U16 {
      assert s[..|s|] == s && s[|s|..] == "";
      assert Normalized(s) + "" == Normalized(s) && Lower(s) + "" == Lower(s);
    }
  }

  // ---------------------------------------------------------------- scanning

  datatype Part = SchemePart | AuthorityPart | PathPart | QueryPart {
    // The characters that may be inside the component.
    predicate Has(c: char) {
      match this
      case SchemePart => IsAlnum(c) || c == '-' || c == '.' || c == '+'
      case AuthorityPart => c != '/' && c != '?' && c != '#'
      case PathPart => c != '?' && c != '#'
      case QueryPart => c != '#'
    }
  }

  function Run(s: string, part: Part): (n: nat)
    ensures n <= |s|
    ensures forall i | 0 <= i < n :: part.Has(s[i])
    ensures n < |s| ==> !part.Has(s[n])
  {
    if s == "" || !part.Has(s[0]) then 0 else 1 + Run(s[1..], part)
  }

  lemma {:induction false} RunIs(s: string, part: Part, n: nat)
    requires n <= |s| && forall i | 0 <= i < n :: part.Has(s[i])
    requires n < |s| ==> !part.Has(s[n])
    ensures Run(s, part) == n
  {
    if n > 0 { RunIs(s[1..], part, n - 1); }
  }

  // parseUriScheme and its siblings count in a std::uint16_t.
  method ScanPart(s: string, part: Part) returns (len: nat)
    ensures len == Run(s, part) % U16 && len < U16
  {
    len := 0;
    var i := 0;
    while i < |s| && part.Has(s[i])
      invariant i <= |s| && len == i % U16
      invariant Run(s, part) == i + Run(s[i..], part)
    {
      DropDrop(s, i, 1);
      CountNext(i);
      len := (len + 1) % U16;
      i := i + 1;
    }
  }

  lemma CountNext(i: nat)
    ensures (i % U16 + 1) % U16 == (i + 1) % U16
  {
    var q, r := i / U16, i % U16;
    assert i + 1 == q * U16 + (r + 1);
    if r + 1 == U16 { assert i + 1 == (q + 1) * U16; }
  }

  predicate All(s: string, part: Part) { forall c | c in s :: part.Has(c) }

  lemma RunAll(s: string, part: Part)
    ensures Run(s, part) == |s| <==> All(s, part)
  {
    if All(s, part) {
      forall i | 0 <= i < |s| ensures part.Has(s[i]) { assert s[i] in s; }
      RunIs(s, part, |s|);
    }
  }

  // ---------------------------------------------------------------- the class

  class Uri {
    var data: string
    var schemeLen: nat
    var authorityLen: nat
    var pathLen: nat
    var queryLen: nat
    var fragmentLen: nat
    var hasAuthority: bool
    var hasQuery: bool
    var hasFragment: bool
    ghost var components: Components

    ghost predicate Valid()
      reads this
    {
      Represents(data, Fields(), components)
    }

    ghost function Fields(): Sizes
      reads this
    {
      Sizes(schemeLen, authorityLen, pathLen, queryLen, fragmentLen, hasAuthority, hasQuery, hasFragment)
    }

    constructor ()
      ensures Valid() && components == NO_URI
    {
      data := "";
      schemeLen, authorityLen, pathLen, queryLen, fragmentLen := 0, 0, 0, 0, 0;
      hasAuthority, hasQuery, hasFragment := false, false, false;
      components := NO_URI;
    }

    predicate IsValid()
      reads this
    {
      schemeLen > 0
    }

    // ---- reading components out of the buffer

    method Scheme() returns (s: string)
      requires Valid()
      ensures s == components.scheme
    {
      hide Packed;
      Slices(components);
      s := data[..schemeLen];
    }

    method Authority() returns (s: string)
      requires Valid()
      ensures s == OrEmpty(components.authority)
    {
      hide Packed;
      Slices(components);
      s := if !hasAuthority then "" else data[schemeLen..schemeLen + authorityLen];
    }

    method Path() returns (s: string)
      requires Valid()
      ensures s == components.path
    {
      hide Packed;
      Slices(components);
      var pathIdx := schemeLen + authorityLen;
      s := data[pathIdx..pathIdx + pathLen];
    }

    method Query() returns (s: string)
      requires Valid()
      ensures s == OrEmpty(components.query)
    {
      hide Packed;
      Slices(components);
      var queryIdx := schemeLen + authorityLen + pathLen;
      s := if !hasQuery then "" else data[queryIdx..queryIdx + queryLen];
    }

    method Fragment() returns (s: string)
      requires Valid()
      ensures s == OrEmpty(components.fragment)
    {
      hide Packed;
      Slices(components);
      var fragmentIdx := schemeLen + authorityLen + pathLen + queryLen;
      s := if !hasFragment then "" else data[fragmentIdx..fragmentIdx + fragmentLen];
    }

    // ---- writing components into the buffer

    // std::string::replace
    method Replace(pos: nat, count: nat, s: string)
      requires pos + count <= |data|
      modifies this`data
      ensures data == old(data)[..pos] + s + old(data)[pos + count..]
    {
      data := data[..pos] + s + data[pos + count..];
    }

    // Replaces a component and normalizes as much of it as its 16-bit length says.
    method ReplaceNormalized(pos: nat, count: nat, s: string)
      requires pos + count <= |data|
      modifies this`data
      ensures data == old(data)[..pos] + Normalized16(s) + old(data)[pos + count..]
    {
      hide Normalized;
      ghost var before, after := data[..pos], data[pos + count..];
      Replace(pos, count, s);
      NormalizedAround(before, s, after);
      data := NormalizeEncodedCase(data, pos, |s| % U16);
    }

    method InsertScheme(scheme: string)
      requires Valid()
      modifies this
      ensures Valid() <==> |scheme| < U16
      ensures |scheme| < U16 ==> components == old(components).(scheme := Lower(scheme))
      ensures |data| == Fields().Total() <==> |scheme| < U16
      ensures data == Lower16(scheme) + old(data[schemeLen..])
      ensures Fields() == old(Fields()).(scheme := |scheme| % U16)
    {
      hide Represents, Lower, Lower16;
      SpliceScheme(data, Fields(), components, scheme);
      ghost var after := data[schemeLen..];
      LowerAround(scheme, after);
      components := components.(scheme := Lower16(scheme));
      Replace(0, schemeLen, scheme);
      assert data == scheme + after;
      schemeLen := |scheme| % U16;
      LowerPrefix();
    }

    method LowerPrefix()
      requires schemeLen <= |data|
      modifies this`data
      ensures data == Lower(old(data)[..schemeLen]) + old(data)[schemeLen..]
    {
      ghost var whole := data;
      var i := 0;
      while i < schemeLen
        invariant i <= schemeLen <= |data| == |whole|
        invariant forall j | 0 <= j < i :: data[j] == ToLower(whole[j])
        invariant forall j | i <= j < |data| :: data[j] == whole[j]
      {
        data := data[i := ToLower(data[i])];
        i := i + 1;
      }
    }

    method InsertAuthority(authority: string)
      requires Valid()
      modifies this
      ensures Valid() <==> |authority| < U16
      ensures |authority| < U16 ==> components == old(components).(authority := Some(Normalized(authority)))
      ensures |data| == Fields().Total() <==> |authority| < U16
      ensures data == old(data[..schemeLen]) + Normalized16(authority) + old(data[schemeLen + authorityLen..])
      ensures Fields() == old(Fields()).(authority := |authority| % U16, hasAuthority := true)
    {
      hide Represents, Normalized, Normalized16;
      SpliceAuthority(data, Fields(), components, authority);
      components := components.(authority := Some(Normalized16(authority)));
      ReplaceNormalized(schemeLen, authorityLen, authority);
      authorityLen := |authority| % U16;
      hasAuthority := true;
    }

    method InsertPath(path: string)
      requires Valid()
      modifies this
      ensures Valid() <==> |path| < U16
      ensures |path| < U16 ==> components == old(components).(path := path)
      ensures |data| == Fields().Total() <==> |path| < U16
      ensures data == old(data[..schemeLen + authorityLen]) + path + old(data[schemeLen + authorityLen + pathLen..])
      ensures Fields() == old(Fields()).(path := |path| % U16)
    {
      hide Represents, Normalized, Normalized16;
      SplicePath(data, Fields(), components, path);
      components := components.(path := path);
      var pathIdx := schemeLen + authorityLen;
      Replace(pathIdx, pathLen, path);
      pathLen := |path| % U16;
    }

    method InsertQuery(query: string)
      requires Valid()
      modifies this
      ensures Valid() <==> |query| < U16
      ensures |query| < U16 ==> components == old(components).(query := Some(Normalized(query)))
      ensures |data| == Fields().Total() <==> |query| < U16
      ensures data == old(data[..schemeLen + authorityLen + pathLen]) + Normalized16(query) +
        old(data[schemeLen + authorityLen + pathLen + queryLen..])
      ensures Fields() == old(Fields()).(query := |query| % U16, hasQuery := true)
    {
      hide Represents, Normalized, Normalized16;
      SpliceQuery(data, Fields(), components, query);
      components := components.(query := Some(Normalized16(query)));
      ReplaceNormalized(schemeLen + authorityLen + pathLen, queryLen, query);
      queryLen := |query| % U16;
      hasQuery := true;
    }

    method InsertFragment(fragment: string)
      requires Valid()
      modifies this
      ensures Valid() <==> |fragment| < U16
      ensures |fragment| < U16 ==> components == old(components).(fragment := Some(Normalized(fragment)))
      ensures |data| == Fields().Total() <==> |fragment| < U16
      ensures data == old(data[..schemeLen + authorityLen + pathLen + queryLen]) + Normalized16(fragment) +
        old(data[schemeLen + authorityLen + pathLen + queryLen + fragmentLen..])
      ensures Fields() == old(Fields()).(fragment := |fragment| % U16, hasFragment := true)
    {
      hide Represents, Normalized, Normalized16;
      SpliceFragment(data, Fields(), components, fragment);
      components := components.(fragment := Some(Normalized16(fragment)));
      ReplaceNormalized(schemeLen + authorityLen + pathLen + queryLen, fragmentLen, fragment);
      fragmentLen := |fragment| % U16;
      hasFragment := true;
    }

    // ---- setters and removers

    method SetScheme(scheme: string) returns (ok: bool)
      requires Valid()
      modifies this
      ensures Valid() && ok == WithScheme(old(components), scheme).Some?
      ensures components == if ok then WithScheme(old(components), scheme).value else old(components)
    {
      hide All, Lower;
      ScanTells(scheme, SchemePart);
      var len := ScanPart(scheme, SchemePart);
      if len == |scheme| {
        InsertScheme(scheme);
        return true;
      }
      return false;
    }

    method SetAuthority(authority: string) returns (ok: bool)
      requires Valid()
      modifies this
      ensures Valid() && ok == WithAuthority(old(components), authority).Some?
      ensures components == if ok then WithAuthority(old(components), authority).value else old(components)
    {
      hide All, Normalized;
      ScanTells(authority, AuthorityPart);
      var len := ScanPart(authority, AuthorityPart);
      if len == |authority| {
        InsertAuthority(authority);
        return true;
      }
      return false;
    }

    // setPath and setFragment do not look at the size of what they are given.
    method SetPath(path: string) returns (ok: bool)
      requires Valid()
      modifies this
      ensures ok && (Valid() <==> |path| < U16)
      ensures |data| == Fields().Total() <==> |path| < U16
      ensures data == old(data[..schemeLen + authorityLen]) + path + old(data[schemeLen + authorityLen + pathLen..])
      ensures Fields() == old(Fields()).(path := |path| % U16)
      ensures |path| < U16 ==> components == old(components).(path := path)
    {
      hide Represents;
      InsertPath(path);
      ok := true;
    }

    method SetQuery(query: string) returns (ok: bool)
      requires Valid()
      modifies this
      ensures Valid() && ok == WithQuery(old(components), query).Some?
      ensures components == if ok then WithQuery(old(components), query).value else old(components)
    {
      hide All, Normalized;
      ScanTells(query, QueryPart);
      var len := ScanPart(query, QueryPart);
      if len == |query| {
        InsertQuery(query);
        return true;
      }
      return false;
    }

    method SetFragment(fragment: string) returns (ok: bool)
      requires Valid()
      modifies this
      ensures ok && (Valid() <==> |fragment| < U16)
      ensures |data| == Fields().Total() <==> |fragment| < U16
      ensures data == old(data[..schemeLen + authorityLen + pathLen + queryLen]) + Normalized16(fragment) +
        old(data[schemeLen + authorityLen + pathLen + queryLen + fragmentLen..])
      ensures Fields() == old(Fields()).(fragment := |fragment| % U16, hasFragment := true)
      ensures |fragment| < U16 ==> components == old(components).(fragment := Some(Normalized(fragment)))
    {
      hide Represents, Normalized, Normalized16;
      InsertFragment(fragment);
      ok := true;
    }

    method RemoveAuthority()
      requires Valid()
      modifies this
      ensures Valid() && components == old(components).(authority := None)
    {
      hide Packed;
      InsertAuthority("");
      WithoutNothing(components);
      hasAuthority := false;
      components := components.(authority := None);
    }

    method RemoveQuery()
      requires Valid()
      modifies this
      ensures Valid() && components == old(components).(query := None)
    {
      hide Packed;
      InsertQuery("");
      WithoutNothing(components);
      hasQuery := false;
      components := components.(query := None);
    }

    method RemoveFragment()
      requires Valid()
      modifies this
      ensures Valid() && components == old(components).(fragment := None)
    {
      hide Packed;
      InsertFragment("");
      WithoutNothing(components);
      hasFragment := false;
      components := components.(fragment := None);
    }
  }

  // ---- facts about the packed buffer

  lemma PackedLength(c: Components)
    ensures |Packed(c)| ==
      |c.scheme| + |OrEmpty(c.authority)| + |c.path| + |OrEmpty(c.query)| + |OrEmpty(c.fragment)|
  {
  }

  lemma FiveSlices(a: string, b: string, c: string, d: string, e: string)
    ensures var t := a + b + c + d + e;
      && t[..|a|] == a
      && t[|a|..|a| + |b|] == b
      && t[|a| + |b|..|a| + |b| + |c|] == c
      && t[|a| + |b| + |c|..|a| + |b| + |c| + |d|] == d
      && t[|a| + |b| + |c| + |d|..|a| + |b| + |c| + |d| + |e|] == e
  {
  }

  lemma Slices(c: Components)
    ensures var t, s, a, p, q := Packed(c), |c.scheme|, |c.scheme| + |OrEmpty(c.authority)|,
        |c.scheme| + |OrEmpty(c.authority)| + |c.path|,
            |c.scheme| + |OrEmpty(c.authority)| + |c.path| + |OrEmpty(c.query)|;
      && |t| == q + |OrEmpty(c.fragment)|
      && t[..s] == c.scheme && t[s..a] == OrEmpty(c.authority) && t[a..p] == c.path
      && t[p..q] == OrEmpty(c.query) && t[q..q + |OrEmpty(c.fragment)|] == OrEmpty(c.fragment)
  {
    FiveSlices(c.scheme, OrEmpty(c.authority), c.path, OrEmpty(c.query), OrEmpty(c.fragment));
  }

  lemma AroundScheme(c: Components)
    ensures Packed(c) == "" + c.scheme + (OrEmpty(c.authority) + c.path + OrEmpty(c.query) + OrEmpty(c.fragment))
  {
    var a, p, q, f := OrEmpty(c.authority), c.path, OrEmpty(c.query), OrEmpty(c.fragment);
    assert "" + c.scheme == c.scheme;
    Assoc(c.scheme, a, p);
    Assoc(c.scheme, a + p, q);
    Assoc(c.scheme, a + p + q, f);
  }

  lemma AroundAuthority(c: Components)
    ensures Packed(c) == c.scheme + OrEmpty(c.authority) + (c.path + OrEmpty(c.query) + OrEmpty(c.fragment))
  {
    var b, p, q, f := c.scheme + OrEmpty(c.authority), c.path, OrEmpty(c.query), OrEmpty(c.fragment);
    Assoc(b, p, q);
    Assoc(b, p + q, f);
  }

  lemma AroundPath(c: Components)
    ensures Packed(c) == (c.scheme + OrEmpty(c.authority)) + c.path + (OrEmpty(c.query) + OrEmpty(c.fragment))
  {
    Assoc(c.scheme + OrEmpty(c.authority) + c.path, OrEmpty(c.query), OrEmpty(c.fragment));
  }

  lemma AroundQuery(c: Components)
    ensures Packed(c) == (c.scheme + OrEmpty(c.authority) + c.path) + OrEmpty(c.query) + OrEmpty(c.fragment)
  {
  }

  lemma AroundFragment(c: Components)
    ensures Packed(c) == (c.scheme + OrEmpty(c.authority) + c.path + OrEmpty(c.query)) + OrEmpty(c.fragment) + ""
  {
    assert OrEmpty(c.fragment) + "" == OrEmpty(c.fragment);
    Assoc(c.scheme + OrEmpty(c.authority) + c.path + OrEmpty(c.query), OrEmpty(c.fragment), "");
  }

  lemma Replaced(before: string, was: string, after: string, s: string)
    ensures var t := before + was + after;
      |before| + |was| <= |t| && t[..|before|] + s + t[|before| + |was|..] == before + s + after
  {
    Split(before + was, after);
    var t := before + was + after;
    Assoc(before, was, after);
    Split(before, was + after);
    assert t[|before| + |was|..] == after;
  }

  lemma SizesAdd(data: string, fields: Sizes, c: Components)
    requires Represents(data, fields, c)
    ensures |data| == fields.Total()
  {
    PackedLength(c);
  }

  // A buffer that holds a new component of any size, and the 16-bit length of
  // it, are those of the new components exactly when the size fits, and only then
  // do the lengths add up.
  lemma Spliced(data: string, fields: Sizes, c: Components, size: nat)
    requires data == Packed(c) && |data| == fields.Total() - size % U16 + size
    requires Fits(c) <==> size < U16
    requires size < U16 ==> fields == SizesOf(c)
    ensures Represents(data, fields, c) <==> size < U16
    ensures |data| == fields.Total() <==> size < U16
  {
    hide Packed;
    SmallMod(size);
  }

  lemma SpliceScheme(data: string, fields: Sizes, c: Components, s: string)
    requires Represents(data, fields, c)
    ensures fields.scheme <= |data| && |s| % U16 <= |s|
    ensures |s| < U16 ==> Lower16(s) == Lower(s)
    ensures var c', fields' := c.(scheme := Lower16(s)), fields.(scheme := |s| % U16);
      var data' := Lower16(s) + data[fields.scheme..];
      && (Represents(data', fields', c') <==> |s| < U16) && (|data'| == fields'.Total() <==> |s| < U16)
  {
    hide Packed, Lower16;
    var after := OrEmpty(c.authority) + c.path + OrEmpty(c.query) + OrEmpty(c.fragment);
    var c', n := c.(scheme := Lower16(s)), Lower16(s);
    AroundScheme(c);
    AroundScheme(c');
    assert "" + c.scheme == c.scheme && "" + n == n;
    Split(c.scheme, after);
    Fitting(s);
    PackedLength(c);
    PackedLength(c');
    Spliced(n + after, fields.(scheme := |s| % U16), c', |s|);
  }

  lemma SpliceAuthority(data: string, fields: Sizes, c: Components, s: string)
    requires Represents(data, fields, c)
    ensures fields.scheme + fields.authority <= |data|
    ensures |s| < U16 ==> Normalized16(s) == Normalized(s)
    ensures var n, i := Normalized16(s), fields.scheme;
      var c', fields' := c.(authority := Some(n)), fields.(authority := |s| % U16, hasAuthority := true);
      var data' := data[..i] + n + data[i + fields.authority..];
      && (Represents(data', fields', c') <==> |s| < U16) && (|data'| == fields'.Total() <==> |s| < U16)
  {
    hide Packed, Normalized, Normalized16;
    var n := Normalized16(s);
    var c' := c.(authority := Some(n));
    AroundAuthority(c);
    AroundAuthority(c');
    Replaced(c.scheme, OrEmpty(c.authority), c.path + OrEmpty(c.query) + OrEmpty(c.fragment), n);
    Fitting(s);
    PackedLength(c);
    PackedLength(c');
    Spliced(Packed(c'), fields.(authority := |s| % U16, hasAuthority := true), c', |s|);
  }

  lemma SplicePath(data: string, fields: Sizes, c: Components, s: string)
    requires Represents(data, fields, c)
    ensures fields.scheme + fields.authority + fields.path <= |data|
    ensures var n, i := s, fields.scheme + fields.authority;
      var c', fields' := c.(path := s), fields.(path := |s| % U16);
      var data' := data[..i] + n + data[i + fields.path..];
      && (Represents(data', fields', c') <==> |s| < U16) && (|data'| == fields'.Total() <==> |s| < U16)
  {
    hide Packed;
    var n := s;
    var c' := c.(path := s);
    AroundPath(c);
    AroundPath(c');
    Replaced(c.scheme + OrEmpty(c.authority), c.path, OrEmpty(c.query) + OrEmpty(c.fragment), n);
    Fitting(s);
    PackedLength(c);
    PackedLength(c');
    Spliced(Packed(c'), fields.(path := |s| % U16), c', |s|);
  }

  lemma SpliceQuery(data: string, fields: Sizes, c: Components, s: string)
    requires Represents(data, fields, c)
    ensures fields.scheme + fields.authority + fields.path + fields.query <= |data|
    ensures |s| < U16 ==> Normalized16(s) == Normalized(s)
    ensures var n, i := Normalized16(s), fields.scheme + fields.authority + fields.path;
      var c', fields' := c.(query := Some(n)), fields.(query := |s| % U16, hasQuery := true);
      var data' := data[..i] + n + data[i + fields.query..];
      && (Represents(data', fields', c') <==> |s| < U16) && (|data'| == fields'.Total() <==> |s| < U16)
  {
    hide Packed, Normalized, Normalized16;
    var n := Normalized16(s);
    var c' := c.(query := Some(n));
    AroundQuery(c);
    AroundQuery(c');
    Replaced(c.scheme + OrEmpty(c.authority) + c.path, OrEmpty(c.query), OrEmpty(c.fragment), n);
    Fitting(s);
    PackedLength(c);
    PackedLength(c');
    Spliced(Packed(c'), fields.(query := |s| % U16, hasQuery := true), c', |s|);
  }

  lemma SpliceFragment(data: string, fields: Sizes, c: Components, s: string)
    requires Represents(data, fields, c)
    ensures fields.scheme + fields.authority + fields.path + fields.query + fields.fragment <= |data|
    ensures |s| < U16 ==> Normalized16(s) == Normalized(s)
    ensures var n, i := Normalized16(s), fields.scheme + fields.authority + fields.path + fields.query;
      var c', fields' := c.(fragment := Some(n)), fields.(fragment := |s| % U16, hasFragment := true);
      var data' := data[..i] + n + data[i + fields.fragment..];
      && (Represents(data', fields', c') <==> |s| < U16) && (|data'| == fields'.Total() <==> |s| < U16)
  {
    hide Packed, Normalized, Normalized16;
    var n := Normalized16(s);
    var c' := c.(fragment := Some(n));
    AroundFragment(c);
    AroundFragment(c');
    Replaced(c.scheme + OrEmpty(c.authority) + c.path + OrEmpty(c.query), OrEmpty(c.fragment), "", n);
    Fitting(s);
    PackedLength(c);
    PackedLength(c');
    Spliced(Packed(c'), fields.(fragment := |s| % U16, hasFragment := true), c', |s|);
  }

  // An empty component takes no place in the buffer, present or absent.
  lemma WithoutNothing(c: Components)
    ensures OrEmpty(c.authority) == "" ==> Packed(c.(authority := None)) == Packed(c)
    ensures OrEmpty(c.query) == "" ==> Packed(c.(query := None)) == Packed(c)
    ensures OrEmpty(c.fragment) == "" ==> Packed(c.(fragment := None)) == Packed(c)
  {
  }

  lemma LowerAround(s: string, after: string)
    ensures var t, n := s + after, |s| % U16; n <= |t| && Lower(t[..n]) + t[n..] == Lower16(s) + after
  {
    hide Lower;
    var n := |s| % U16;
    assert (s + after)[..n] == s[..n] && (s + after)[n..] == s[n..] + after;
    Assoc(Lower(s[..n]), s[n..], after);
  }

  lemma NormalizedAround(before: string, s: string, after: string)
    ensures var t, n := before + s + after, |before| + |s| % U16;
      |before| <= n <= |t|
      && t[..|before|] + Normalized(t[|before|..n]) + t[n..] == before + Normalized16(s) + after
  {
    hide Normalized;
    var t, m := before + s + after, |s| % U16;
    var n := |before| + m;
    assert t[..|before|] == before && t[|before|..n] == s[..m] && t[n..] == s[m..] + after;
    Assoc(before + Normalized(s[..m]), s[m..], after);
    Assoc(before, Normalized(s[..m]), s[m..]);
  }

  // ---------------------------------------------------------------- setters and removers

  // How the public operations change the components; None: refused.
  function WithScheme(c: Components, s: string): Option<Components> {
    if All(s, SchemePart) && |s| < U16 then Some(c.(scheme := Lower(s))) else None
  }

  function WithAuthority(c: Components, s: string): Option<Components> {
    if All(s, AuthorityPart) && |s| < U16 then Some(c.(authority := Some(Normalized(s)))) else None
  }

  function WithQuery(c: Components, s: string): Option<Components> {
    if All(s, QueryPart) && |s| < U16 then Some(c.(query := Some(Normalized(s)))) else None
  }

  // The 16-bit scan refuses whatever does not fit, except by accident of the
  // wrap: a size is never its own remainder beyond 16 bits.
  lemma ScanTells(s: string, part: Part)
    ensures Run(s, part) % U16 == |s| <==> All(s, part) && |s| < U16
  {
    RunAll(s, part);
    if |s| < U16 { SmallMod(Run(s, part)); }
  }

  lemma SmallMod(n: nat)
    ensures n < U16 ==> n % U16 == n
  {
  }

  // Equality of two URIs compares their fields; it is equality of what they
  // stand for.
  predicate SameFields(a: Uri, b: Uri)
    reads a, b
  {
    && a.data == b.data
    && a.schemeLen == b.schemeLen && a.authorityLen == b.authorityLen && a.pathLen == b.pathLen
    && a.queryLen == b.queryLen && a.fragmentLen == b.fragmentLen
    && a.hasAuthority == b.hasAuthority && a.hasQuery == b.hasQuery && a.hasFragment == b.hasFragment
  }

  lemma SameFieldsSameComponents(a: Uri, b: Uri)
    requires a.Valid() && b.Valid()
    ensures SameFields(a, b) <==> a.components == b.components
  {
    hide Packed;
    Slices(a.components);
    Slices(b.components);
  }
}
