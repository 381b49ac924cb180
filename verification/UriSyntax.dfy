// lsp/uri.cpp: Uri::parse and Uri::toString, and when the one undoes the other.
module UriSyntax {
  import opened Wrappers
  import opened Text
  import opened UriCodec
  import opened Uri

  // ---------------------------------------------------------------- text

  // The parts of a URI text as they stand in it.
  datatype Raw = Raw(
    scheme: string,
    authority: Option<string>,
    path: string,
    query: Option<string>,
    fragment: Option<string>)

  function Marked(mark: string, o: Option<string>): string { if o.Some? then mark + o.value else "" }

  function TailText(path: string, query: Option<string>, fragment: Option<string>): string {
    path + (Marked("?", query) + Marked("#", fragment))
  }

  function RawText(r: Raw): string {
    r.scheme + (":" + (Marked("//", r.authority) + TailText(r.path, r.query, r.fragment)))
  }

  function RawOf(c: Components): Raw {
    Raw(c.scheme, c.authority, Encoded(c.path, "/"), c.query, c.fragment)
  }

  function UriText(c: Components): string {
    if c.scheme == "" then "" else RawText(RawOf(c))
  }

  method ToString(uri: Uri) returns (result: string)
    requires uri.Valid()
    ensures result == UriText(uri.components)
  {
    hide Encoded, Packed;
    if !uri.IsValid() {
      return "";
    }
    var path := uri.Path();
    var encodedPath := Encode(path, "/");
    var scheme := uri.Scheme();
    result := "";
    result := result + scheme;
    result := result + ":";
    if uri.hasAuthority {
      var authority := uri.Authority();
      result := result + "//";
      result := result + authority;
    }
    result := result + encodedPath;
    if uri.hasQuery {
      var query := uri.Query();
      result := result + "?";
      result := result + query;
    }
    if uri.hasFragment {
      var fragment := uri.Fragment();
      result := result + "#";
      result := result + fragment;
    }
    ghost var c := uri.components;
    Joined(c.scheme, c.authority, encodedPath, c.query, c.fragment);
  }

  lemma Joined(scheme: string, authority: Option<string>, path: string, query: Option<string>, fragment: Option<string>)
    ensures var t0 := "" + scheme + ":";
      var t1 := if authority.Some? then t0 + "//" + authority.value else t0;
      var t2 := t1 + path;
      var t3 := if query.Some? then t2 + "?" + query.value else t2;
      (if fragment.Some? then t3 + "#" + fragment.value else t3) ==
          RawText(Raw(scheme, authority, path, query, fragment))
  {
    var a, q, f := Marked("//", authority), Marked("?", query), Marked("#", fragment);
    var t0 := "" + scheme + ":";
    assert "" + scheme == scheme && t0 + "" == t0;
    if authority.Some? { Assoc(t0, "//", authority.value); }
    var t2 := t0 + a + path;
    assert t2 + "" == t2;
    if query.Some? { Assoc(t2, "?", query.value); }
    var t3 := t2 + q;
    assert t3 + "" == t3;
    if fragment.Some? { Assoc(t3, "#", fragment.value); }
    Assoc(t2, q, f);
    Assoc(t0 + a, path, q + f);
    Assoc(t0, a, path + (q + f));
    Assoc(scheme, ":", a + (path + (q + f)));
  }

  // ---------------------------------------------------------------- taking a text apart

  // The scanners count in 16 bits; RFC 3986 knows no such bound.
  datatype Counting = Wrapping | Exact

  function Counted(s: string, part: Part, w: Counting): (n: nat)
    ensures n <= |s|
  {
    if w.Wrapping? then Run(s, part) % U16 else Run(s, part)
  }

  function QueryOf(u: string, w: Counting): Option<string> {
    if u != "" && u[0] == '?' then Some(u[1..1 + Counted(u[1..], QueryPart, w)]) else None
  }

  function AfterQuery(u: string, w: Counting): string {
    if u != "" && u[0] == '?' then u[1 + Counted(u[1..], QueryPart, w)..] else u
  }

  function FragmentOf(v: string): Option<string> {
    if v != "" && v[0] == '#' then Some(v[1..]) else None
  }

  // Path, query and fragment.  What a wrapped count leaves over is ignored.
  function TailOf(scheme: string, authority: Option<string>, t: string, w: Counting): Raw {
    var m := Counted(t, PathPart, w);
    Raw(scheme, authority, t[..m], QueryOf(t[m..], w), FragmentOf(AfterQuery(t[m..], w)))
  }

  // What follows the scheme and its colon.
  function DissectRest(scheme: string, rest: string, w: Counting): Option<Raw> {
    if "//" <= rest then
      var a := Counted(rest[2..], AuthorityPart, w);
      var tail := rest[2 + a..];
      if tail != "" && tail[0] != '/' then None else Some(TailOf(scheme, Some(rest[2..2 + a]), tail, w))
    else Some(TailOf(scheme, None, rest, w))
  }

  function Dissect(s: string, w: Counting): Option<Raw> {
    var n := Counted(s, SchemePart, w);
    if n == 0 || n >= |s| || s[n] != ':' then None else DissectRest(s[..n], s[n + 1..], w)
  }

  function NormalizedOption(o: Option<string>): Option<string> {
    if o.Some? then Some(Normalized(o.value)) else None
  }

  // The fragment has no count of its own; its letter case is normalized as far as
  // its 16-bit length says.
  function NormalizedFragment(o: Option<string>): Option<string> {
    if o.Some? then Some(Normalized16(o.value)) else None
  }

  function ComponentsOf(r: Raw): Components {
    Components(Lower(r.scheme), NormalizedOption(r.authority), Decoded(r.path), NormalizedOption(r.query),
               NormalizedFragment(r.fragment))
  }

  function Reading(s: string, w: Counting): Components {
    match Dissect(s, w)
    case Some(r) => ComponentsOf(r)
    case None => NO_URI
  }

  // What parse leaves in the buffer.
  function ParsedUri(s: string): Components { Reading(s, Wrapping) }

  // The fields after parsing.  Only the fragment can be too long for its length.
  ghost predicate Holds(uri: Uri, c: Components)
    reads uri
  {
    var f := OrEmpty(c.fragment);
    && (uri.Valid() <==> |f| < U16) && (|f| < U16 ==> uri.components == c)
    && uri.data == Packed(c) && uri.Fields() == SizesOf(c).(fragment := |f| % U16)
  }

  predicate RawFits(r: Raw) {
    && |r.scheme| < U16 && |OrEmpty(r.authority)| < U16 && |r.path| < U16
    && |OrEmpty(r.query)| < U16 && |OrEmpty(r.fragment)| < U16
  }

  predicate TextFits(s: string) { Dissect(s, Exact).Some? ==> RawFits(Dissect(s, Exact).value) }

  // Counting modulo 2^16 stops inside a longer run.
  lemma InsideRun(s: string, part: Part)
    ensures var n, m := Run(s, part), Counted(s, part, Wrapping);
      m < U16 && (n < U16 ==> m == n) && (n >= U16 ==> m < n && part.Has(s[m]))
  {
    SmallMod(Run(s, part));
  }

  // ---------------------------------------------------------------- parse

  // Exact for every text: the counts wrap, and so does the length of the fragment.
  method Parse(uriStr: string) returns (uri: Uri)
    ensures fresh(uri) && Holds(uri, ParsedUri(uriStr))
  {
    hide *;
    NormalizedEither(None);
    ReadingIs(uriStr, Wrapping);
    uri := new Uri();
    HoldsNothing(uri);
    var schemeLen := ScanPart(uriStr, SchemePart);
    SchemeHere(uriStr, schemeLen);
    if schemeLen == 0 || schemeLen >= |uriStr| || uriStr[schemeLen] != ':' {
      return;
    }
    var scheme := uriStr[..schemeLen];
    uri.InsertScheme(scheme);
    var refused, idx, authority := TakeAuthority(uri, uriStr, schemeLen + 1, scheme);
    if refused {
      uri := new Uri();
      HoldsNothing(uri);
      return;
    }
    ghost var raw := TailOf(scheme, authority, uriStr[idx..], Wrapping);
    Assembled(scheme, authority, uriStr[idx..]);
    idx := TakePath(uri, uriStr, idx);
    idx := TakeQuery(uri, uriStr, idx);
    TakeFragment(uri, uriStr, idx, raw);
  }

  // The authority, if there is one; refused when what follows it is no path.
  method TakeAuthority(uri: Uri, s: string, start: nat, ghost scheme: string)
    returns (refused: bool, next: nat, ghost authority: Option<string>)
    requires uri.Valid() && uri.components.authority == None && start <= |s|
    modifies uri
    ensures uri.Valid() && next <= |s|
    ensures var r := DissectRest(scheme, s[start..], Wrapping);
      if refused then r == None
      else r == Some(TailOf(scheme, authority, s[next..], Wrapping))
           && uri.components == old(uri.components).(authority := NormalizedOption(authority))
  {
    hide *;
    next := start;
    authority := None;
    SlashesAt(s, start);
    var hasAuthority := start + 1 < |s| && s[start] == '/' && s[start + 1] == '/';
    if hasAuthority {
      next := next + 2;
      var authorityLen := ScanPart(s[next..], AuthorityPart);
      AuthorityHere(scheme, s, start, authorityLen);
      authority := Some(s[next..next + authorityLen]);
      uri.InsertAuthority(s[next..next + authorityLen]);
      next := next + authorityLen;
    } else {
      NoAuthorityHere(scheme, s[start..], Wrapping);
    }
    NormalizedEither(authority);
    refused := next < |s| && hasAuthority && s[next] != '/';
  }

  method TakePath(uri: Uri, s: string, idx: nat) returns (next: nat)
    requires uri.Valid() && uri.components.path == "" && idx <= |s|
    modifies uri
    ensures var t, m := s[idx..], Counted(s[idx..], PathPart, Wrapping);
      && uri.Valid() && next <= |s| && s[next..] == t[m..]
      && uri.components == old(uri.components).(path := Decoded(t[..m]))
  {
    hide *;
    next := idx;
    var pathIsEmpty := idx >= |s|;
    if !pathIsEmpty {
      var pathLen := ScanPart(s[idx..], PathPart);
      CountedIs(s[idx..], PathPart);
      var path := s[idx..idx + pathLen];
      assert path == s[idx..][..pathLen];
      var decodedPath := Decode(path);
      DecodedShorter(path);
      uri.InsertPath(decodedPath);
      next := idx + pathLen;
      DropDrop(s, idx, pathLen);
    } else {
      EmptyPath(s[idx..]);
    }
  }

  method TakeQuery(uri: Uri, s: string, idx: nat) returns (next: nat)
    requires uri.Valid() && uri.components.query == None && idx <= |s|
    modifies uri
    ensures var u := s[idx..];
      && uri.Valid() && next <= |s| && s[next..] == AfterQuery(u, Wrapping)
      && uri.components == old(uri.components).(query := NormalizedOption(QueryOf(u, Wrapping)))
  {
    hide *;
    next := idx;
    var hasQuery := idx < |s| && s[idx] == '?';
    if hasQuery {
      next := idx + 1;
      var queryLen := ScanPart(s[next..], QueryPart);
      CountedIs(s[next..], QueryPart);
      var query := s[next..next + queryLen];
      QueryHere(s, idx);
      uri.InsertQuery(query);
      next := next + queryLen;
    } else {
      NoQueryHere(s, idx);
    }
  }

  method TakeFragment(uri: Uri, s: string, idx: nat, ghost r: Raw)
    requires uri.Valid() && idx <= |s|
    requires uri.components == ComponentsOf(r.(fragment := None)) && r.fragment == FragmentOf(s[idx..])
    modifies uri
    ensures Holds(uri, ComponentsOf(r))
  {
    hide *;
    var hasFragment := idx < |s| && s[idx] == '#';
    FragmentHere(s, idx);
    BeforeFragment(uri, r);
    if hasFragment {
      var fragment := s[idx + 1..];
      uri.InsertFragment(fragment);
      AfterFragment(uri, r, fragment);
    }
  }

  // ---- facts for the steps of parse

  lemma ReadingIs(s: string, w: Counting)
    ensures ParsedUri(s) == Reading(s, Wrapping)
    ensures Reading(s, w) == if Dissect(s, w).Some? then ComponentsOf(Dissect(s, w).value) else NO_URI
  {
    hide Dissect, ComponentsOf;
  }

  lemma HoldsNothing(uri: Uri)
    requires uri.Valid() && uri.components == NO_URI
    ensures Holds(uri, NO_URI)
  {
  }

  lemma CountedIs(s: string, part: Part)
    ensures Counted(s, part, Wrapping) == Run(s, part) % U16
  {
  }

  lemma SchemeHere(s: string, m: nat)
    requires m == Run(s, SchemePart) % U16 && m <= |s|
    ensures Dissect(s, Wrapping) ==
      if m == 0 || m >= |s| || s[m] != ':' then None else DissectRest(s[..m], s[m + 1..], Wrapping)
  {
    hide DissectRest, Run;
  }

  lemma SlashesAt(s: string, i: nat)
    requires i <= |s|
    ensures "//" <= s[i..] <==> i + 1 < |s| && s[i] == '/' && s[i + 1] == '/'
  {
    if i + 1 < |s| { assert s[i..][0] == s[i] && s[i..][1] == s[i + 1]; }
  }

  lemma TailKeeps(w: Counting)
    ensures forall scheme, authority, t ::
      TailOf(scheme, authority, t, w).scheme == scheme && TailOf(scheme, authority, t, w).authority == authority
  {
  }

  lemma NoAuthorityHere(scheme: string, rest: string, w: Counting)
    requires !("//" <= rest)
    ensures DissectRest(scheme, rest, w) == Some(TailOf(scheme, None, rest, w))
  {
    hide TailOf;
  }

  lemma AuthorityHere(scheme: string, s: string, i: nat, m: nat)
    requires i + 2 <= |s| && "//" <= s[i..] && m == Run(s[i + 2..], AuthorityPart) % U16
    ensures i + 2 + m <= |s|
    ensures DissectRest(scheme, s[i..], Wrapping) ==
      if i + 2 + m < |s| && s[i + 2 + m] != '/' then None
      else Some(TailOf(scheme, Some(s[i + 2..i + 2 + m]), s[i + 2 + m..], Wrapping))
  {
    hide TailOf, Run;
    var rest := s[i..];
    CountedIs(s[i + 2..], AuthorityPart);
    assert rest[2..] == s[i + 2..];
    assert rest[2 + m..] == s[i + 2 + m..] && rest[2..2 + m] == s[i + 2..i + 2 + m];
    if i + 2 + m < |s| { assert s[i + 2 + m] == rest[2 + m..][0]; }
  }

  lemma NormalizedEither(o: Option<string>)
    ensures o.Some? ==> NormalizedOption(o) == Some(Normalized(o.value))
    ensures NormalizedOption(None) == None
    ensures NO_URI == Components("", None, "", None, None)
  {
    hide Normalized;
  }

  lemma DecodedShorter(s: string)
    ensures |Decoded(s)| <= |s|
  {
    hide DecodedOption;
    DecodedLength(s);
  }

  lemma EmptyPath(t: string)
    requires t == ""
    ensures Counted(t, PathPart, Wrapping) == 0 && Decoded(t[..0]) == ""
  {
  }

  lemma QueryHere(s: string, idx: nat)
    requires idx < |s| && s[idx] == '?'
    ensures var k := Counted(s[idx + 1..], QueryPart, Wrapping);
      && idx + 1 + k <= |s|
      && AfterQuery(s[idx..], Wrapping) == s[idx + 1 + k..]
      && NormalizedOption(QueryOf(s[idx..], Wrapping)) == Some(Normalized(s[idx + 1..idx + 1 + k]))
  {
    hide Counted, Normalized;
    var u := s[idx..];
    var k := Counted(s[idx + 1..], QueryPart, Wrapping);
    assert u[0] == s[idx] && u[1..] == s[idx + 1..];
    assert u[1..1 + k] == s[idx + 1..idx + 1 + k] && u[1 + k..] == s[idx + 1 + k..];
  }

  lemma NoQueryHere(s: string, idx: nat)
    requires idx <= |s| && !(idx < |s| && s[idx] == '?')
    ensures AfterQuery(s[idx..], Wrapping) == s[idx..] && NormalizedOption(QueryOf(s[idx..], Wrapping)) == None
  {
    hide Counted, Normalized;
  }

  lemma FragmentHere(s: string, idx: nat)
    requires idx <= |s|
    ensures FragmentOf(s[idx..]) == if idx < |s| && s[idx] == '#' then Some(s[idx + 1..]) else None
  {
    if idx < |s| { assert s[idx..][1..] == s[idx + 1..]; }
  }

  lemma BeforeFragment(uri: Uri, r: Raw)
    requires uri.Valid() && uri.components == ComponentsOf(r.(fragment := None))
    ensures var n := uri.schemeLen + uri.authorityLen + uri.pathLen + uri.queryLen;
      && n == |uri.data| && uri.data[..n] == uri.data && uri.fragmentLen == 0
      && uri.data == Packed(uri.components) && uri.Fields() == SizesOf(uri.components)
    ensures r.fragment == None ==> Holds(uri, ComponentsOf(r))
  {
    hide Lower, Normalized, Decoded, Packed;
    SizesAdd(uri.data, uri.Fields(), uri.components);
    if r.fragment == None { assert r.(fragment := None) == r; }
  }

  lemma AfterFragment(uri: Uri, r: Raw, f: string)
    requires r.fragment == Some(f)
    requires var c := ComponentsOf(r.(fragment := None));
      && uri.data == Packed(c) + Normalized16(f) + ""
      && uri.Fields() == SizesOf(c).(fragment := |f| % U16, hasFragment := true)
      && (uri.Valid() <==> |f| < U16)
      && (|f| < U16 ==> uri.components == c.(fragment := Some(Normalized(f))))
    ensures Holds(uri, ComponentsOf(r))
  {
    hide Lower, Normalized, Decoded, Normalized16;
    var c := ComponentsOf(r.(fragment := None));
    Fitting(f);
    assert Packed(c) + Normalized16(f) + "" == Packed(c) + Normalized16(f);
    PackedLast(c, Normalized16(f));
  }

  lemma PackedLast(c: Components, f: string)
    requires c.fragment == None
    ensures Packed(c.(fragment := Some(f))) == Packed(c) + f
  {
    var t := c.scheme + OrEmpty(c.authority) + c.path + OrEmpty(c.query);
    assert t + "" == t;
  }

  lemma Assembled(scheme: string, authority: Option<string>, t: string)
    ensures var m, r := Counted(t, PathPart, Wrapping), TailOf(scheme, authority, t, Wrapping);
      && r.fragment == FragmentOf(AfterQuery(t[m..], Wrapping))
      && ComponentsOf(r.(fragment := None))
           == Components(Lower(scheme), NormalizedOption(authority), Decoded(t[..m]),
                         NormalizedOption(QueryOf(t[m..], Wrapping)), None)
  {
    hide Counted, Lower, Normalized, Decoded, QueryOf, FragmentOf, AfterQuery;
  }

  // ---------------------------------------------------------------- the counts do not matter for texts that fit

  lemma QueriesAgree(u: string)
    ensures |OrEmpty(QueryOf(u, Exact))| < U16 ==>
      QueryOf(u, Wrapping) == QueryOf(u, Exact) && AfterQuery(u, Wrapping) == AfterQuery(u, Exact)
  {
    hide Run;
    if u != "" { InsideRun(u[1..], QueryPart); }
  }

  lemma TailsAgree(scheme: string, authority: Option<string>, t: string)
    ensures RawFits(TailOf(scheme, authority, t, Exact)) ==>
      TailOf(scheme, authority, t, Wrapping) == TailOf(scheme, authority, t, Exact)
  {
    hide Run, QueryOf, AfterQuery, FragmentOf;
    InsideRun(t, PathPart);
    QueriesAgree(t[Run(t, PathPart)..]);
  }

  lemma RestsAgree(scheme: string, rest: string)
    ensures var e := DissectRest(scheme, rest, Exact);
      (e.Some? ==> RawFits(e.value)) ==> DissectRest(scheme, rest, Wrapping) == e
  {
    hide Run, TailOf;
    TailKeeps(Exact);
    if "//" <= rest {
      InsideRun(rest[2..], AuthorityPart);
      var n := Run(rest[2..], AuthorityPart);
      var m := n % U16;
      TailsAgree(scheme, Some(rest[2..2 + n]), rest[2 + n..]);
      if n >= U16 { assert rest[2 + m..][0] == rest[2..][m]; }
    } else {
      TailsAgree(scheme, None, rest);
    }
  }

  // Counting modulo 2^16 makes no difference as long as every part fits.
  lemma CountsAgree(s: string)
    ensures TextFits(s) ==> Dissect(s, Wrapping) == Dissect(s, Exact) && ParsedUri(s) == Reading(s, Exact)
  {
    hide Run, DissectRest, ComponentsOf;
    InsideRun(s, SchemePart);
    var n := Run(s, SchemePart);
    if n < |s| {
      RestsAgree(s[..n], s[n + 1..]);
      DissectKeeps(s[..n], s[n + 1..]);
    }
  }

  lemma DissectKeeps(scheme: string, rest: string)
    ensures DissectRest(scheme, rest, Exact).Some? ==> DissectRest(scheme, rest, Exact).value.scheme == scheme
  {
    hide TailOf, Run;
    TailKeeps(Exact);
  }

  // ---------------------------------------------------------------- parse undoes toString

  ghost predicate LegalOption(o: Option<string>, part: Part) {
    o.Some? ==> All(o.value, part) && Normalized(o.value) == o.value
  }

  // Components as parse leaves them: legal characters, a lower-case scheme,
  // upper-case percent-triplets.
  ghost predicate Legal(c: Components) {
    && c.scheme != "" && All(c.scheme, SchemePart) && Lower(c.scheme) == c.scheme
    && LegalOption(c.authority, AuthorityPart)
    && AllBytes(c.path)
    && LegalOption(c.query, QueryPart)
    && (c.fragment.Some? ==> Normalized(c.fragment.value) == c.fragment.value)
  }

  predicate StartsWithSlash(s: string) { s != "" && s[0] == '/' }

  // RFC 3986, section 3.3: without an authority the path does not start with
  // two slashes; with one, it starts with a slash or is empty - and here, where
  // it is empty nothing may follow the authority.
  predicate Separable(c: Components) {
    if c.authority.None? then !("//" <= c.path)
    else StartsWithSlash(c.path) || (c.path == "" && c.query.None? && c.fragment.None?)
  }

  lemma {:induction false} EncodedInPath(s: string)
    ensures All(Encoded(s, "/"), PathPart)
  {
    hide EncodedChar;
    if s != "" {
      EncodedInPath(s[1..]);
      EncodedCharInPath(s[0]);
      forall c | c in Encoded(s, "/") ensures PathPart.Has(c) {
        assert c in EncodedChar(s[0], "/") || c in Encoded(s[1..], "/");
      }
    }
  }

  lemma EncodedCharInPath(ch: char)
    ensures forall c | c in EncodedChar(ch, "/") :: PathPart.Has(c)
    ensures EncodedChar(ch, "/")[0] == '/' <==> ch == '/'
    ensures ch == '/' ==> EncodedChar(ch, "/") == "/"
    ensures ch != '/' ==> AuthorityPart.Has(EncodedChar(ch, "/")[0])
  {
  }

  lemma EncodedStart(s: string)
    ensures Encoded(s, "/") == "" <==> s == ""
    ensures StartsWithSlash(Encoded(s, "/")) <==> StartsWithSlash(s)
    ensures StartsWithSlash(s) ==> Encoded(s, "/") == "/" + Encoded(s[1..], "/")
    ensures s != "" && s[0] != '/' ==> AuthorityPart.Has(Encoded(s, "/")[0])
  {
    hide EncodedChar;
    if s != "" { EncodedCharInPath(s[0]); }
  }

  lemma EncodedSlashes(s: string)
    ensures "//" <= Encoded(s, "/") <==> "//" <= s
  {
    hide Encoded;
    EncodedStart(s);
    if StartsWithSlash(s) {
      EncodedStart(s[1..]);
      assert "//" <= s <==> StartsWithSlash(s[1..]);
      assert "//" <= Encoded(s, "/") <==> StartsWithSlash(Encoded(s[1..], "/"));
    } else {
      assert "//" <= s ==> StartsWithSlash(s);
      assert "//" <= Encoded(s, "/") ==> StartsWithSlash(Encoded(s, "/"));
    }
  }

  // A legal tail comes apart as it was put together.
  lemma TailRoundTrip(scheme: string, authority: Option<string>, path: string, query: Option<string>,
                      fragment: Option<string>)
    requires All(path, PathPart) && |path| < U16
    requires query.Some? ==> All(query.value, QueryPart) && |query.value| < U16
    ensures TailOf(scheme, authority, TailText(path, query, fragment), Wrapping) ==
      Raw(scheme, authority, path, query, fragment)
  {
    hide Counted, All, QueryOf, AfterQuery, FragmentOf, Marked;
    var f := Marked("#", fragment);
    var u := Marked("?", query) + f;
    FragmentTaken(fragment);
    QueryTaken(query, f);
    CountUpTo(path, u, PathPart);
    Split(path, u);
  }

  lemma QueryTaken(query: Option<string>, f: string)
    requires query.Some? ==> All(query.value, QueryPart) && |query.value| < U16
    requires f != "" ==> f[0] == '#'
    ensures var u := Marked("?", query) + f;
      QueryOf(u, Wrapping) == query && AfterQuery(u, Wrapping) == f && (u != "" ==> !PathPart.Has(u[0]))
  {
    hide Counted, All;
    if query.Some? {
      var q := query.value;
      Assoc("?", q, f);
      var u := "?" + (q + f);
      assert u[1..] == q + f;
      CountUpTo(q, f, QueryPart);
      assert u[1..1 + |q|] == q && u[1 + |q|..] == f;
    } else {
      assert "" + f == f;
    }
  }

  lemma FragmentTaken(fragment: Option<string>)
    ensures var f := Marked("#", fragment); FragmentOf(f) == fragment && (f != "" ==> f[0] == '#')
  {
    if fragment.Some? { Split("#", fragment.value); }
  }

  lemma RunUpTo(a: string, b: string, part: Part)
    requires All(a, part) && (b != "" ==> !part.Has(b[0]))
    ensures Run(a + b, part) == |a|
  {
    forall i | 0 <= i < |a| ensures part.Has((a + b)[i]) { assert (a + b)[i] == a[i] && a[i] in a; }
    RunIs(a + b, part, |a|);
  }

  lemma CountUpTo(a: string, b: string, part: Part)
    requires All(a, part) && (b != "" ==> !part.Has(b[0]))
    ensures Counted(a + b, part, Wrapping) == |a| % U16 && (|a| < U16 ==> |a| % U16 == |a|)
  {
    hide Run;
    RunUpTo(a, b, part);
    SmallMod(|a|);
  }

  lemma {:induction false} RunBeyond(a: string, b: string, part: Part)
    requires All(a, part) && b != "" && part.Has(b[0])
    ensures Run(a + b, part) > |a|
  {
    if a == "" {
      assert a + b == b;
    } else {
      assert a[0] in a && (a + b)[1..] == a[1..] + b;
      forall c | c in a[1..] ensures part.Has(c) { assert c in a; }
      RunBeyond(a[1..], b, part);
    }
  }

  lemma DissectText(scheme: string, rest: string)
    requires scheme != "" && All(scheme, SchemePart) && |scheme| < U16
    ensures Dissect(scheme + (":" + rest), Wrapping) == DissectRest(scheme, rest, Wrapping)
  {
    hide DissectRest, Counted;
    CountUpTo(scheme, ":" + rest, SchemePart);
    Split(scheme, ":" + rest);
    var s := scheme + (":" + rest);
    assert s[|scheme|] == ':' && s[|scheme| + 1..] == rest;
  }

  lemma UriTextParts(c: Components)
    requires c.scheme != ""
    ensures UriText(c) == c.scheme + (":" +
      (Marked("//", c.authority) + TailText(Encoded(c.path, "/"), c.query, c.fragment)))
  {
    hide Encoded, TailText, Marked;
  }

  lemma RawComponents(c: Components)
    requires Legal(c) && Fits(c)
    ensures ComponentsOf(RawOf(c)) == c
  {
    hide Encoded, DecodedOption, Normalized, Lower, All, AllBytes, Normalized16;
    DecodeEncodedOption(c.path, "/");
    Fitting(OrEmpty(c.fragment));
  }

  lemma TailStart(path: string, query: Option<string>, fragment: Option<string>)
    ensures var t := TailText(Encoded(path, "/"), query, fragment);
      && (t == "" <==> path == "" && query.None? && fragment.None?)
      && (StartsWithSlash(t) <==> StartsWithSlash(path))
      && ("//" <= t <==> "//" <= path)
      && (path == "" && t != "" ==> t[0] == '?' || t[0] == '#')
      && (path != "" && path[0] != '/' ==> AuthorityPart.Has(t[0]))
  {
    hide Encoded;
    EncodedStart(path);
    EncodedSlashes(path);
    var e, u := Encoded(path, "/"), Marked("?", query) + Marked("#", fragment);
    assert u != "" ==> u[0] == '?' || u[0] == '#';
    assert "//" <= e + u <==> "//" <= e by {
      if |e| >= 2 {
        assert (e + u)[..2] == e[..2];
        assert "//" <= e + u <==> (e + u)[..2] == "//";
        assert "//" <= e <==> e[..2] == "//";
      } else if |e| == 1 {
        assert u != "" ==> (e + u)[1] == u[0];
      } else {
        assert e + u == u;
      }
    }
  }

  // The encoded path fits the count of the scanner.
  predicate PathCounts(c: Components) { |Encoded(c.path, "/")| < U16 }

  // Of an encoded path that does not the scanner takes too little.
  lemma PathLost(c: Components, authority: Option<string>)
    requires Legal(c) && !PathCounts(c)
    ensures Decoded(TailOf(c.scheme, authority, TailText(Encoded(c.path, "/"), c.query, c.fragment), Wrapping).path)
         != c.path
  {
    hide Encoded, DecodedOption, Counted, All, QueryOf, AfterQuery, FragmentOf, Normalized;
    var e, u := Encoded(c.path, "/"), Marked("?", c.query) + Marked("#", c.fragment);
    EncodedInPath(c.path);
    MarkedStart(c.query, c.fragment);
    CountUpTo(e, u, PathPart);
    ModBelow(|e|);
    var m := |e| % U16;
    assert (e + u)[..m] == e[..m];
    CutEncoded(c.path, "/", m);
    EncodedStart(c.path);
  }

  lemma ModBelow(n: nat)
    requires n >= U16
    ensures n % U16 + 6 < n
  {
    SmallMod(n % U16);
    assert n == n / U16 * U16 + n % U16;
  }

  lemma MarkedStart(query: Option<string>, fragment: Option<string>)
    ensures var u := Marked("?", query) + Marked("#", fragment); u != "" ==> !PathPart.Has(u[0])
  {
  }

  // Once the authority is told apart, the encoded path decides.
  lemma TailDecides(c: Components)
    requires Legal(c) && Fits(c)
    ensures var t := TailText(Encoded(c.path, "/"), c.query, c.fragment);
      ComponentsOf(TailOf(c.scheme, c.authority, t, Wrapping)) == c <==> PathCounts(c)
  {
    hide *;
    LegalParts(c);
    if PathCounts(c) {
      PathCountsIs(c);
      EncodedInPath(c.path);
      TailRoundTrip(c.scheme, c.authority, Encoded(c.path, "/"), c.query, c.fragment);
      RawComponents(c);
    } else {
      PathLost(c, c.authority);
      PathOf(TailOf(c.scheme, c.authority, TailText(Encoded(c.path, "/"), c.query, c.fragment), Wrapping));
    }
  }

  lemma PathCountsIs(c: Components)
    ensures PathCounts(c) <==> |Encoded(c.path, "/")| < U16
  {
  }

  lemma PathOf(r: Raw)
    ensures ComponentsOf(r).path == Decoded(r.path)
  {
    hide Decoded, Lower, Normalized, Normalized16;
  }

  lemma LegalParts(c: Components)
    requires Legal(c) && Fits(c)
    ensures c.scheme != "" && All(c.scheme, SchemePart) && |c.scheme| < U16
    ensures c.authority.Some? ==> All(c.authority.value, AuthorityPart) && |c.authority.value| < U16
    ensures c.query.Some? ==> All(c.query.value, QueryPart) && |c.query.value| < U16
    ensures RawOf(c) == Raw(c.scheme, c.authority, Encoded(c.path, "/"), c.query, c.fragment)
    ensures Marked("//", None) == ""
    ensures forall t: string :: "" + t == t
  {
  }

  lemma RoundTripNoAuthority(c: Components)
    requires Legal(c) && Fits(c) && c.authority == None
    ensures ParsedUri(UriText(c)) == c <==> Separable(c) && PathCounts(c)
  {
    hide *;
    LegalParts(c);
    var t := TailText(Encoded(c.path, "/"), c.query, c.fragment);
    UriTextParts(c);
    DissectText(c.scheme, t);
    ReadingIs(UriText(c), Wrapping);
    TailStart(c.path, c.query, c.fragment);
    SeparableIs(c);
    if "//" <= t {
      AuthorityTaken(c.scheme, t);
    } else {
      NoAuthorityHere(c.scheme, t, Wrapping);
      TailDecides(c);
    }
  }

  lemma SeparableIs(c: Components)
    ensures c.authority.None? ==> (Separable(c) <==> !("//" <= c.path))
    ensures c.authority.Some? ==>
      (Separable(c) <==> StartsWithSlash(c.path) || (c.path == "" && c.query.None? && c.fragment.None?))
  {
  }

  lemma AuthorityTaken(scheme: string, rest: string)
    requires "//" <= rest
    ensures var r := DissectRest(scheme, rest, Wrapping);
      (if r.Some? then ComponentsOf(r.value) else NO_URI).authority.Some? || (r.None? && NO_URI.scheme == "")
  {
    hide Run, TailOf, Lower, Decoded, Normalized;
    TailKeeps(Wrapping);
  }

  lemma RoundTripAuthority(c: Components)
    requires Legal(c) && Fits(c) && c.authority.Some?
    ensures ParsedUri(UriText(c)) == c <==> Separable(c) && PathCounts(c)
  {
    hide *;
    LegalParts(c);
    var a, t := c.authority.value, TailText(Encoded(c.path, "/"), c.query, c.fragment);
    UriTextParts(c);
    MarkedIs("//", a);
    Assoc("//", a, t);
    var rest := "//" + (a + t);
    DissectText(c.scheme, rest);
    ReadingIs(UriText(c), Wrapping);
    TailStart(c.path, c.query, c.fragment);
    SeparableIs(c);
    AuthorityDecides(c.scheme, a, t);
    TailDecides(c);
    AuthorityChars(t);
    NoScheme();
    SlashStart(t);
    SlashStart(c.path);
  }

  lemma MarkedIs(mark: string, s: string)
    ensures Marked(mark, Some(s)) == mark + s
  {
  }

  lemma NoScheme()
    ensures NO_URI.scheme == ""
  {
  }

  lemma SlashStart(t: string)
    ensures StartsWithSlash(t) <==> t != "" && t[0] == '/'
  {
  }

  lemma AuthorityChars(t: string)
    ensures t != "" ==> (AuthorityPart.Has(t[0]) <==> t[0] != '/' && t[0] != '?' && t[0] != '#')
  {
  }

  // What follows the authority has to be nothing or a slash; if it is a character
  // of an authority, more than the authority is taken, or, where the count wraps,
  // nothing.
  lemma AuthorityDecides(scheme: string, a: string, t: string)
    requires All(a, AuthorityPart) && |a| < U16
    ensures var r := DissectRest(scheme, "//" + (a + t), Wrapping);
      if t == "" || t[0] == '/' then r == Some(TailOf(scheme, Some(a), t, Wrapping))
      else if AuthorityPart.Has(t[0]) then r.Some? ==> ComponentsOf(r.value).authority != Some(a)
      else r == None
  {
    hide Counted, Run, TailOf, All, Decoded, Lower, Normalized, Normalized16;
    var rest := "//" + (a + t);
    Split("//", a + t);
    assert rest[2..] == a + t;
    TailKeeps(Wrapping);
    if t != "" && AuthorityPart.Has(t[0]) {
      RunBeyond(a, t, AuthorityPart);
      InsideRun(rest[2..], AuthorityPart);
      var m := Counted(rest[2..], AuthorityPart, Wrapping);
      if m == |a| { assert rest[2 + m..][0] == rest[2..][m]; }
    } else {
      CountUpTo(a, t, AuthorityPart);
      assert rest[2..2 + |a|] == a && rest[2 + |a|..] == t;
    }
  }

  // Parsing what toString wrote gives the components back exactly when the text
  // does not hide where the path begins and the encoded path fits the count of the
  // scanner, 16 bits as the lengths of the components.
  lemma UriRoundTrip(c: Components)
    requires Legal(c) && Fits(c)
    ensures ParsedUri(UriText(c)) == c <==> Separable(c) && PathCounts(c)
  {
    hide *;
    if c.authority.None? { RoundTripNoAuthority(c); } else { RoundTripAuthority(c); }
  }

  // The packed class does so under the same condition.
  method RoundTrip(uri: Uri) returns (copy: Uri)
    requires uri.Valid() && Legal(uri.components)
    ensures copy.Valid() && copy.components == uri.components <==>
      Separable(uri.components) && PathCounts(uri.components)
  {
    hide UriText, ParsedUri, Legal, Separable, PathCounts, Packed, SizesOf;
    UriRoundTrip(uri.components);
    var text := ToString(uri);
    copy := Parse(text);
  }

  // ---------------------------------------------------------------- toString undoes parse

  lemma {:induction false} NormalizedKeeps(s: string, part: Part)
    requires All(s, part) && part != SchemePart
    ensures All(Normalized(s), part)
    decreases |s|
  {
    hide Normalized;
    NormalizedStep(s);
    if s != "" {
      var k := if s[0] == '%' && |s| > 2 then 3 else 1;
      forall c | c in s[k..] ensures part.Has(c) { assert c in s; }
      NormalizedKeeps(s[k..], part);
      assert s[0] in s;
      if k == 3 { assert s[1] in s && s[2] in s; }
      forall c | c in Normalized(s) ensures part.Has(c) {
        if c !in Normalized(s[k..]) { assert c in Normalized(s)[..k]; }
      }
    }
  }

  lemma {:induction false} DecodedBytes(s: string)
    requires AllBytes(s)
    ensures DecodedOption(s).Some? ==> AllBytes(DecodedOption(s).value)
    decreases |s|
  {
    hide DecodedOption;
    if s == "" {
      DecodedNothing();
    } else {
      DecodedStep(s);
      assert s[0] in s;
      forall c | c in s[1..] ensures IsByte(c) { assert c in s; }
      DecodedBytes(s[1..]);
      if |s| > 2 {
        forall c | c in s[3..] ensures IsByte(c) { assert c in s; }
        DecodedBytes(s[3..]);
      }
    }
  }

  lemma LowerScheme(s: string)
    requires All(s, SchemePart)
    ensures All(Lower(s), SchemePart) && Lower(Lower(s)) == Lower(s)
  {
    forall c | c in Lower(s) ensures SchemePart.Has(c) {
      var i :| 0 <= i < |s| && Lower(s)[i] == c;
      assert s[i] in s;
    }
  }

  lemma RunIsLegal(s: string, part: Part)
    ensures var n := Run(s, part); All(s[..n], part)
  {
    var n := Run(s, part);
    forall c | c in s[..n] ensures part.Has(c) {
      var i :| 0 <= i < n && s[..n][i] == c;
      assert part.Has(s[i]);
    }
  }

  ghost predicate RawLegal(r: Raw) {
    && r.scheme != "" && All(r.scheme, SchemePart) && AllBytes(r.path)
    && (r.authority.Some? ==> All(r.authority.value, AuthorityPart))
    && (r.query.Some? ==> All(r.query.value, QueryPart))
  }

  lemma CountIsLegal(s: string, part: Part)
    ensures var m := Counted(s, part, Wrapping); m < U16 && All(s[..m], part)
  {
    hide Run;
    RunIsLegal(s, part);
    InsideRun(s, part);
    var n, m := Run(s, part), Counted(s, part, Wrapping);
    forall c | c in s[..m] ensures part.Has(c) { assert c in s[..n]; }
  }

  // All parts but the fragment keep the bound.
  predicate RawCounted(r: Raw) { RawFits(r.(fragment := None)) }

  lemma TailLegal(scheme: string, authority: Option<string>, t: string)
    requires scheme != "" && All(scheme, SchemePart) && AllBytes(t) && |scheme| < U16 && |OrEmpty(authority)| < U16
    requires authority.Some? ==> All(authority.value, AuthorityPart)
    ensures var r := TailOf(scheme, authority, t, Wrapping); RawLegal(r) && RawCounted(r)
  {
    hide Counted, All;
    CountIsLegal(t, PathPart);
    var m := Counted(t, PathPart, Wrapping);
    forall c | c in t[..m] ensures IsByte(c) { assert c in t; }
    var u := t[m..];
    if u != "" {
      CountIsLegal(u[1..], QueryPart);
      var k := Counted(u[1..], QueryPart, Wrapping);
      assert u[1..1 + k] == u[1..][..k];
    }
  }

  lemma DissectLegal(s: string)
    requires AllBytes(s) && Dissect(s, Wrapping).Some?
    ensures var r := Dissect(s, Wrapping).value; RawLegal(r) && RawCounted(r)
  {
    hide Counted, All, TailOf, RawLegal, RawCounted;
    CountIsLegal(s, SchemePart);
    var n := Counted(s, SchemePart, Wrapping);
    var scheme, rest := s[..n], s[n + 1..];
    forall c | c in rest ensures IsByte(c) { assert c in s; }
    if "//" <= rest {
      CountIsLegal(rest[2..], AuthorityPart);
      var a := Counted(rest[2..], AuthorityPart, Wrapping);
      assert rest[2..2 + a] == rest[2..][..a];
      forall c | c in rest[2 + a..] ensures IsByte(c) { assert c in rest; }
      TailLegal(scheme, Some(rest[2..2 + a]), rest[2 + a..]);
    } else {
      TailLegal(scheme, None, rest);
    }
  }

  lemma OptionLegal(o: Option<string>, part: Part)
    requires part != SchemePart && (o.Some? ==> All(o.value, part))
    ensures LegalOption(NormalizedOption(o), part)
  {
    hide All, Normalized;
    if o.Some? {
      NormalizedKeeps(o.value, part);
      NormalizeTwice(o.value);
    }
  }

  lemma ComponentsLegal(r: Raw)
    requires RawLegal(r) && RawCounted(r) && |OrEmpty(r.fragment)| < U16
    ensures Legal(ComponentsOf(r)) && Fits(ComponentsOf(r))
  {
    hide All, AllBytes, Normalized, DecodedOption, Lower, LegalOption, Normalized16;
    LowerScheme(r.scheme);
    OptionLegal(r.authority, AuthorityPart);
    OptionLegal(r.query, QueryPart);
    if r.fragment.Some? {
      Fitting(r.fragment.value);
      NormalizeTwice(r.fragment.value);
    }
    DecodedBytes(r.path);
    DecodedShorter(r.path);
    NothingBytes();
  }

  lemma FragmentLength(r: Raw)
    ensures |OrEmpty(ComponentsOf(r).fragment)| == |OrEmpty(r.fragment)|
  {
    hide Normalized, Lower, Decoded, Normalized16;
    if r.fragment.Some? { Fitting(r.fragment.value); }
  }

  lemma NothingBytes()
    ensures AllBytes("")
  {
  }

  // What parse leaves behind is legal, if the fragment fits its length; so parsing,
  // writing and parsing again changes nothing exactly when the parsed path cannot be
  // taken for something else and fits the count of the scanner when it is encoded.
  lemma Reparsed(s: string)
    requires AllBytes(s) && Dissect(s, Wrapping).Some? && |OrEmpty(ParsedUri(s).fragment)| < U16
    ensures Legal(ParsedUri(s)) && Fits(ParsedUri(s))
    ensures ParsedUri(UriText(ParsedUri(s))) == ParsedUri(s) <==> Separable(ParsedUri(s)) && PathCounts(ParsedUri(s))
  {
    hide *;
    ReadingIs(s, Wrapping);
    var r := Dissect(s, Wrapping).value;
    DissectLegal(s);
    FragmentLength(r);
    ComponentsLegal(r);
    UriRoundTrip(ParsedUri(s));
  }

  // ---------------------------------------------------------------- texts that do not come back

  // A text with an authority and a path that starts with a slash comes apart as
  // it was put together.
  lemma AuthorityText(r: Raw)
    requires r.scheme != "" && All(r.scheme, SchemePart) && r.authority.Some?
    requires All(r.authority.value, AuthorityPart) && All(r.path, PathPart)
    requires r.query.Some? ==> All(r.query.value, QueryPart)
    requires StartsWithSlash(r.path) || (r.path == "" && r.query.None? && r.fragment.None?)
    requires RawFits(r)
    ensures Dissect(RawText(r), Wrapping) == Some(r)
  {
    hide All, TailOf, Counted, TailText;
    var a, t := r.authority.value, TailText(r.path, r.query, r.fragment);
    var rest := "//" + (a + t);
    Assoc("//", a, t);
    DissectText(r.scheme, rest);
    TailRoundTrip(r.scheme, r.authority, r.path, r.query, r.fragment);
    Split("//", a + t);
    assert t != "" ==> t[0] == '/' by { TailFirst(r.path, r.query, r.fragment); }
    CountUpTo(a, t, AuthorityPart);
    assert rest[2..2 + |a|] == a && rest[2 + |a|..] == t;
  }

  lemma TailFirst(path: string, query: Option<string>, fragment: Option<string>)
    requires StartsWithSlash(path) || (path == "" && query.None? && fragment.None?)
    ensures var t := TailText(path, query, fragment); t != "" ==> t[0] == '/'
  {
  }

  lemma PathText(r: Raw)
    requires r.scheme != "" && All(r.scheme, SchemePart) && r.authority.None? && All(r.path, PathPart)
    requires r.query.None? && r.fragment.None? && !("//" <= r.path) && RawFits(r)
    ensures Dissect(RawText(r), Wrapping) == Some(r) && RawText(r) == r.scheme + (":" + r.path)
  {
    hide All, TailOf, Counted;
    TailRoundTrip(r.scheme, None, r.path, None, None);
    assert r.path + ("" + "") == r.path && "" + r.path == r.path;
    DissectText(r.scheme, r.path);
  }

  lemma RefusedText(scheme: string, a: string, u: string)
    requires scheme != "" && All(scheme, SchemePart) && All(a, AuthorityPart) && |scheme| < U16 && |a| < U16
    requires u != "" && u[0] != '/' && !AuthorityPart.Has(u[0])
    ensures ParsedUri(scheme + (":" + ("//" + (a + u)))) == NO_URI
  {
    hide All, TailOf, Counted;
    var rest := "//" + (a + u);
    DissectText(scheme, rest);
    Split("//", a + u);
    CountUpTo(a, u, AuthorityPart);
    assert rest[2 + |a|..] == u;
  }

  lemma OneChar(c: char)
    ensures Normalized([c]) == [c] && DecodedOption("") == Some("")
    ensures c == ToLower(c) ==> Lower([c]) == [c]
  {
    assert [c][1..] == "" && [c] + "" == [c];
  }

  lemma Read(s: string, r: Raw)
    requires Dissect(s, Wrapping) == Some(r)
    ensures ParsedUri(s) == ComponentsOf(r)
  {
    hide Dissect, ComponentsOf;
  }

  // Components whose path is taken for an authority.
  lemma PathTakenForAuthority()
    ensures var c := Components("a", None, "//b", None, None);
      Legal(c) && UriText(c) == "a://b" && ParsedUri("a://b") == Components("a", Some("b"), "", None, None)
  {
    hide DecodedOption, Normalized, Lower, Encoded, Dissect;
    var r := Raw("a", Some("b"), "", None, None);
    AuthorityText(r);
    assert RawText(r) == "a://b";
    OneChar('a');
    OneChar('b');
    KeptAsIs("//b", "/");
    assert UriText(Components("a", None, "//b", None, None)) == "a://b";
  }

  lemma DecodedSlashes()
    ensures DecodedOption("%2F%2Fb") == Some("//b")
  {
    hide DecodedOption;
    var s := "%2F%2Fb";
    assert s[3..] == "%2Fb" && "%2Fb"[3..] == "b" && "b"[1..] == "";
    DecodedStep(s);
    DecodedStep("%2Fb");
    DecodedStep("b");
    DecodedNothing();
    assert (16 * HexValue('2') + HexValue('F')) as char == '/';
    assert "b" + "" == "b" && "/" + "b" == "/b" && "/" + "/b" == "//b";
  }

  // A text that parse accepts, with the same path.
  lemma EscapedSlashes()
    ensures ParsedUri("a:%2F%2Fb") == Components("a", None, "//b", None, None)
  {
    hide DecodedOption, Normalized, Lower, Dissect;
    var r := Raw("a", None, "%2F%2Fb", None, None);
    assert r.path[0] == '%';
    PathText(r);
    assert RawText(r) == "a:%2F%2Fb";
    OneChar('a');
    DecodedSlashes();
  }

  lemma DecodedMalformed()
    ensures DecodedOption("/%zz") == None
  {
    hide DecodedOption;
    assert "/%zz"[1..] == "%zz";
    DecodedStep("/%zz");
    DecodedStep("%zz");
  }

  // A malformed escape: the path decodes to nothing, and what toString then
  // writes is refused.
  lemma MalformedEscape()
    ensures var c := Components("a", Some("h"), "", Some("q"), None);
      ParsedUri("a://h/%zz?q") == c && UriText(c) == "a://h?q" && ParsedUri("a://h?q") == NO_URI
  {
    hide DecodedOption, Normalized, Lower, Dissect, ParsedUri;
    MalformedParsed();
    var c := Components("a", Some("h"), "", Some("q"), None);
    assert UriText(c) == "a://h?q";
    RefusedText("a", "h", "?q");
    assert "a" + (":" + ("//" + ("h" + "?q"))) == "a://h?q";
  }

  lemma MalformedParsed()
    ensures ParsedUri("a://h/%zz?q") == Components("a", Some("h"), "", Some("q"), None)
  {
    hide DecodedOption, Normalized, Lower, Dissect;
    var r := Raw("a", Some("h"), "/%zz", Some("q"), None);
    AuthorityText(r);
    assert RawText(r) == "a://h/%zz?q";
    OneChar('a');
    OneChar('h');
    OneChar('q');
    DecodedMalformed();
  }

  // A text with a scheme and a path only, however long.
  lemma PathCut(path: string)
    requires All(path, PathPart) && !("//" <= path)
    ensures ParsedUri("a" + (":" + path)) == Components("a", None, Decoded(path[..|path| % U16]), None, None)
  {
    hide DecodedOption, Normalized, Normalized16, Lower, Dissect, Counted, DissectRest, Decoded;
    DissectText("a", path);
    NoAuthorityHere("a", path, Wrapping);
    assert path + "" == path;
    CountUpTo(path, "", PathPart);
    NothingFollows(path, Counted(path, PathPart, Wrapping));
    OneChar('a');
    Read("a" + (":" + path), TailOf("a", None, path, Wrapping));
  }

  lemma NothingFollows(path: string, m: nat)
    requires All(path, PathPart) && m <= |path|
    ensures QueryOf(path[m..], Wrapping) == None && AfterQuery(path[m..], Wrapping) == path[m..]
    ensures FragmentOf(path[m..]) == None
  {
    if m < |path| { assert path[m..][0] == path[m] && path[m] in path; }
  }

  lemma {:induction false} EncodedSpaces(n: nat)
    ensures |Encoded(Filled(' ', n), "/")| == 3 * n && (n > 0 ==> Encoded(Filled(' ', n), "/")[..2] == "%2")
  {
    hide EncodedChar;
    if n > 0 {
      EncodedSpaces(n - 1);
      assert Filled(' ', n)[1..] == Filled(' ', n - 1);
      EncodedSpace();
    }
  }

  lemma EncodedSpace()
    ensures EncodedChar(' ', "/") == "%20"
  {
  }

  function Filled(c: char, n: nat): string { seq(n, _ => c) }

  // Components that fit, with a path that does not when it is encoded: of 65538
  // bytes the scanner counts two.
  lemma PathTooLong()
    ensures var c := Components("a", None, Filled(' ', 21846), None, None);
      && Legal(c) && Fits(c) && Separable(c)
      && ParsedUri(UriText(c)) == Components("a", None, "%2", None, None)
  {
    hide DecodedOption, Normalized, Encoded, ParsedUri;
    var path := Filled(' ', 21846);
    var e := Encoded(path, "/");
    EncodedSpaces(21846);
    EncodedInPath(path);
    EncodedSlashes(path);
    assert path[0] == ' ';
    PathCut(e);
    ShortText("%2");
    OneChar('a');
    PlainText(path);
  }

  lemma PlainText(path: string)
    ensures UriText(Components("a", None, path, None, None)) == "a" + (":" + Encoded(path, "/"))
  {
    hide Encoded;
    assert Encoded(path, "/") + ("" + "") == Encoded(path, "/") && "" + Encoded(path, "/") == Encoded(path, "/");
  }

  // ---------------------------------------------------------------- letter case

  // Two URI texts that differ only in the case of scheme letters and of the
  // hexadecimal digits of percent-triplets.
  ghost predicate SameButCase(s: string, t: string) {
    var n := Run(s, SchemePart);
    |s| == |t| && Lower(s[..n]) == Lower(t[..n]) && SameButHexCase(s[n..], t[n..])
  }

  // One step into two such texts: a character, or a triplet.
  lemma SameStep(a: string, b: string) returns (k: nat)
    requires SameButHexCase(a, b) && a != ""
    ensures 0 < k <= |a| == |b| && k == (if a[0] == '%' then 3 else 1)
    ensures SameButHexCase(a[k..], b[k..]) && a[0] == b[0]
    ensures forall part: Part | part != SchemePart && part.Has(a[0]) ::
      forall i | 0 <= i < k :: part.Has(a[i]) && part.Has(b[i])
  {
    k := if a[0] == '%' then 3 else 1;
  }

  lemma SameJoined(a: string, b: string, k: nat, c: string, d: string)
    requires SameButHexCase(a, b) && a != "" && k == (if a[0] == '%' then 3 else 1) && SameButHexCase(c, d)
    requires k <= |a| == |b|
    ensures SameButHexCase(a[..k] + c, b[..k] + d)
  {
    var x, y := a[..k] + c, b[..k] + d;
    assert x[k..] == c && y[k..] == d;
    assert forall i | 0 <= i < k :: x[i] == a[i] && y[i] == b[i];
  }

  lemma RunFrom(a: string, part: Part, k: nat)
    requires k <= |a| && forall i | 0 <= i < k :: part.Has(a[i])
    ensures var n, m := Run(a, part), Run(a[k..], part);
      n == k + m && a[..n] == a[..k] + a[k..][..m] && a[n..] == a[k..][m..]
  {
    hide *;
    var m := Run(a[k..], part);
    forall i | 0 <= i < k + m ensures part.Has(a[i]) {
      if i >= k { assert a[k..][i - k] == a[i]; }
    }
    if k + m < |a| { assert a[k..][m] == a[k + m]; }
    RunIs(a, part, k + m);
    DropDrop(a, k, m);
    assert a[..k + m] == a[..k] + a[k..][..m];
  }

  lemma SameNothing()
    ensures SameButHexCase("", "")
  {
  }

  lemma {:induction false} SameRun(a: string, b: string, part: Part)
    requires SameButHexCase(a, b) && part != SchemePart
    ensures Run(a, part) == Run(b, part)
    ensures var n := Run(a, part); SameButHexCase(a[..n], b[..n]) && SameButHexCase(a[n..], b[n..])
    decreases |a|
  {
    hide *;
    SameLength(a, b);
    if a != "" {
      var k := SameStep(a, b);
      if part.Has(a[0]) {
        SameRun(a[k..], b[k..], part);
        RunFrom(a, part, k);
        RunFrom(b, part, k);
        var m := Run(a[k..], part);
        SameJoined(a, b, k, a[k..][..m], b[k..][..m]);
        return;
      }
    }
    RunIs(a, part, 0);
    RunIs(b, part, 0);
    SameNothing();
    assert a[..0] == "" == b[..0] && a[0..] == a && b[0..] == b;
  }

  lemma SameLength(a: string, b: string)
    requires SameButHexCase(a, b)
    ensures |a| == |b|
  {
  }

  lemma SameSlashes(a: string, b: string)
    requires SameButHexCase(a, b)
    ensures "//" <= a <==> "//" <= b
    ensures "//" <= a ==> SameButHexCase(a[2..], b[2..])
  {
    if |a| > 1 && a[0] == '/' && a[1] == '/' {
      assert a[1..][1..] == a[2..] && b[1..][1..] == b[2..];
    }
    if |a| > 1 && a[0] == '/' { assert a[1..][0] == a[1] && b[1..][0] == b[1]; }
  }

  ghost predicate SameOption(a: Option<string>, b: Option<string>) {
    (a.None? && b.None?) || (a.Some? && b.Some? && SameButHexCase(a.value, b.value))
  }

  // Two such texts, or what is left of two where a wrapped count stopped inside a
  // part.
  ghost predicate SameOrStuck(a: string, b: string, part: Part) {
    SameButHexCase(a, b) || (a != "" && b != "" && part.Has(a[0]) && part.Has(b[0]))
  }

  // The parts that the counts cut out end in the same piece of a triplet.
  predicate OptionsAlike(a: Option<string>, b: Option<string>) {
    Unfinished(OrEmpty(a)) == Unfinished(OrEmpty(b))
  }

  predicate FragmentsAlike(a: Option<string>, b: Option<string>) {
    var f, g := OrEmpty(a), OrEmpty(b);
    |f| == |g| && var k := |f| % U16; Unfinished(f[..k]) == Unfinished(g[..k]) && f[k..] == g[k..]
  }

  predicate RawsAlike(x: Raw, y: Raw) {
    Unfinished(x.path) == Unfinished(y.path) && OptionsAlike(x.query, y.query) && FragmentsAlike(x.fragment, y.fragment)
  }

  // No count stops inside a triplet whose digits differ in case, and what is left
  // of a fragment behind its length is the same.
  predicate CutAlike(s: string, t: string) {
    match (Dissect(s, Wrapping), Dissect(t, Wrapping))
    case (Some(x), Some(y)) => RawsAlike(x, y)
    case _ => true
  }

  // The same length is counted in both, and what follows is the same but for case
  // unless the count wrapped.
  lemma SameCount(a: string, b: string, part: Part) returns (m: nat)
    requires SameButHexCase(a, b) && part != SchemePart
    ensures m == Counted(a, part, Wrapping) == Counted(b, part, Wrapping) && m <= |a| == |b|
    ensures SameOrStuck(a[m..], b[m..], part)
    ensures Run(a, part) < U16 ==>
      && m == Run(a, part) == Run(b, part)
      && SameButHexCase(a[..m], b[..m]) && SameButHexCase(a[m..], b[m..])
    ensures Run(a, part) >= U16 ==> m < |a| && part.Has(a[m]) && part.Has(b[m])
  {
    hide Run, SameButHexCase;
    SameLength(a, b);
    SameRun(a, b, part);
    InsideRun(a, part);
    InsideRun(b, part);
    m := Counted(a, part, Wrapping);
  }

  lemma SamePath(a: string, b: string) returns (m: nat)
    requires SameButHexCase(a, b)
    ensures m == Counted(a, PathPart, Wrapping) == Counted(b, PathPart, Wrapping) && m <= |a| == |b|
    ensures Decoded(a[..m]) == Decoded(b[..m]) <==> Unfinished(a[..m]) == Unfinished(b[..m])
    ensures SameOrStuck(a[m..], b[m..], PathPart)
    ensures Run(a, PathPart) < U16 ==>
      m == Run(a, PathPart) && Unfinished(a[..m]) == Unfinished(b[..m]) && SameButHexCase(a[m..], b[m..])
  {
    hide Run, SameButHexCase, DecodedOption, Unfinished, Counted, SameOrStuck;
    m := SameCount(a, b, PathPart);
    CutDecoded(a, b, m);
    if Run(a, PathPart) < U16 { Complete(a[..m], b[..m]); }
  }

  lemma SameQuery(u: string, v: string)
    requires SameOrStuck(u, v, PathPart)
    ensures var p, q := QueryOf(u, Wrapping), QueryOf(v, Wrapping);
      NormalizedOption(p) == NormalizedOption(q) <==> OptionsAlike(p, q)
    ensures SameOrStuck(AfterQuery(u, Wrapping), AfterQuery(v, Wrapping), QueryPart)
    ensures SameButHexCase(u, v) && |OrEmpty(QueryOf(u, Exact))| < U16 ==>
      && OptionsAlike(QueryOf(u, Wrapping), QueryOf(v, Wrapping)) && AfterQuery(u, Wrapping) == AfterQuery(u, Exact)
      && SameButHexCase(AfterQuery(u, Wrapping), AfterQuery(v, Wrapping))
  {
    hide Run, SameButHexCase, Normalized, Counted, Unfinished;
    if SameButHexCase(u, v) {
      SameLength(u, v);
      if u != "" {
        var step := SameStep(u, v);
        if u[0] == '?' { SameQueryTaken(u, v); }
      }
    }
  }

  lemma SameQueryTaken(u: string, v: string)
    requires u != "" && v != "" && u[0] == v[0] == '?' && SameButHexCase(u[1..], v[1..])
    ensures var p, q := QueryOf(u, Wrapping), QueryOf(v, Wrapping);
      NormalizedOption(p) == NormalizedOption(q) <==> OptionsAlike(p, q)
    ensures SameOrStuck(AfterQuery(u, Wrapping), AfterQuery(v, Wrapping), QueryPart)
    ensures |OrEmpty(QueryOf(u, Exact))| < U16 ==>
      && OptionsAlike(QueryOf(u, Wrapping), QueryOf(v, Wrapping)) && AfterQuery(u, Wrapping) == AfterQuery(u, Exact)
      && SameButHexCase(AfterQuery(u, Wrapping), AfterQuery(v, Wrapping))
  {
    hide Run, SameButHexCase, Normalized, Counted, Unfinished, SameOrStuck;
    var k := SameCount(u[1..], v[1..], QueryPart);
    CutNormalized(u[1..], v[1..], k);
    assert u[1..1 + k] == u[1..][..k] && v[1..1 + k] == v[1..][..k];
    assert u[1 + k..] == u[1..][k..] && v[1 + k..] == v[1..][k..];
    ExactIs(u[1..], QueryPart);
    if Run(u[1..], QueryPart) < U16 { Complete(u[1..][..k], v[1..][..k]); }
  }

  lemma ExactIs(s: string, part: Part)
    ensures Counted(s, part, Exact) == Run(s, part)
  {
  }

  lemma SameFragment(u: string, v: string)
    requires SameOrStuck(u, v, QueryPart)
    ensures var f, g := FragmentOf(u), FragmentOf(v);
      NormalizedFragment(f) == NormalizedFragment(g) <==> FragmentsAlike(f, g)
    ensures SameButHexCase(u, v) && |OrEmpty(FragmentOf(u))| < U16 ==> FragmentsAlike(FragmentOf(u), FragmentOf(v))
  {
    hide SameButHexCase, Normalized16, Unfinished;
    if SameButHexCase(u, v) {
      SameLength(u, v);
      if u != "" {
        var step := SameStep(u, v);
        if u[0] == '#' { SameFragmentText(u[1..], v[1..]); }
      }
    }
  }

  lemma SameFragmentText(f: string, g: string)
    requires SameButHexCase(f, g)
    ensures |f| == |g|
    ensures Normalized16(f) == Normalized16(g) <==> FragmentsAlike(Some(f), Some(g))
    ensures |f| < U16 ==> FragmentsAlike(Some(f), Some(g))
  {
    hide SameButHexCase, Normalized, Unfinished;
    SameLength(f, g);
    SmallMod(|f|);
    var k := |f| % U16;
    CutNormalized(f, g, k);
    Split(Normalized(f[..k]), f[k..]);
    Split(Normalized(g[..k]), g[k..]);
    if |f| < U16 {
      assert f[..k] == f && g[..k] == g && f[k..] == "" == g[k..];
      Complete(f, g);
    }
  }

  lemma SameOptionNormalized(a: Option<string>, b: Option<string>)
    requires SameOption(a, b)
    ensures NormalizedOption(a) == NormalizedOption(b)
  {
    if a.Some? { SameNormalized(a.value, b.value); }
  }

  lemma SameTailComponents(scheme: string, scheme': string, authority: Option<string>, authority': Option<string>,
                           a: string, b: string)
    requires Lower(scheme) == Lower(scheme') && SameOption(authority, authority') && SameButHexCase(a, b)
    ensures var x, y := TailOf(scheme, authority, a, Wrapping), TailOf(scheme', authority', b, Wrapping);
      && (ComponentsOf(x) == ComponentsOf(y) <==> RawsAlike(x, y))
      && (RawFits(TailOf(scheme, authority, a, Exact)) ==> RawsAlike(x, y))
  {
    hide Run, SameButHexCase, SameOption, Normalized, DecodedOption, Lower, QueryOf, FragmentOf, AfterQuery,
         NormalizedOption, NormalizedFragment, Decoded, Unfinished, OptionsAlike, FragmentsAlike, SameOrStuck, Counted;
    var m := SamePath(a, b);
    var u, v := a[m..], b[m..];
    SameQuery(u, v);
    SameFragment(AfterQuery(u, Wrapping), AfterQuery(v, Wrapping));
    SameOptionNormalized(authority, authority');
    ExactIs(a, PathPart);
  }

  lemma SameRest(scheme: string, scheme': string, a: string, b: string)
    requires Lower(scheme) == Lower(scheme') && SameButHexCase(a, b)
    ensures match (DissectRest(scheme, a, Wrapping), DissectRest(scheme', b, Wrapping))
      case (None, None) => true
      case (Some(x), Some(y)) =>
        && (ComponentsOf(x) == ComponentsOf(y) <==> RawsAlike(x, y))
        && var e := DissectRest(scheme, a, Exact); (e.Some? ==> RawFits(e.value)) ==> RawsAlike(x, y)
      case _ => false
  {
    hide Run, TailOf, ComponentsOf, Lower, SameButHexCase, SameOption, Counted, RawsAlike, RawFits;
    SameSlashes(a, b);
    SameLength(a, b);
    if "//" <= a {
      var n := SameAuthority(a, b);
      ExactIs(a[2..], AuthorityPart);
      if Run(a[2..], AuthorityPart) < U16 {
        SameTailComponents(scheme, scheme', Some(a[2..2 + n]), Some(b[2..2 + n]), a[2 + n..], b[2 + n..]);
      }
    } else {
      SameNoAuthority();
      SameTailComponents(scheme, scheme', None, None, a, b);
    }
  }

  lemma SameNoAuthority()
    ensures SameOption(None, None)
  {
  }

  lemma SameAuthority(a: string, b: string) returns (n: nat)
    requires "//" <= a && "//" <= b && SameButHexCase(a[2..], b[2..])
    ensures n == Counted(a[2..], AuthorityPart, Wrapping) == Counted(b[2..], AuthorityPart, Wrapping)
    ensures 2 + n <= |a| == |b|
    ensures Run(a[2..], AuthorityPart) < U16 ==>
      && n == Run(a[2..], AuthorityPart)
      && SameOption(Some(a[2..2 + n]), Some(b[2..2 + n])) && SameButHexCase(a[2 + n..], b[2 + n..])
      && (2 + n < |a| ==> a[2 + n] == b[2 + n])
    ensures Run(a[2..], AuthorityPart) >= U16 ==>
      a[2 + n..] != "" && b[2 + n..] != "" && a[2 + n..][0] != '/' && b[2 + n..][0] != '/'
  {
    hide Run, SameButHexCase, Counted, SameOrStuck;
    SameLength(a[2..], b[2..]);
    n := SameCount(a[2..], b[2..], AuthorityPart);
    assert a[2..2 + n] == a[2..][..n] && b[2..2 + n] == b[2..][..n];
    DropDrop(a, 2, n);
    DropDrop(b, 2, n);
    if 2 + n < |a| && Run(a[2..], AuthorityPart) < U16 { var k := SameStep(a[2 + n..], b[2 + n..]); }
  }

  // Such texts parse to equal URIs exactly when no count of the scanners stops in
  // them where they differ; for texts that fit the counts there is no such place.
  lemma CaseInsensitive(s: string, t: string)
    requires SameButCase(s, t)
    ensures ParsedUri(s) == ParsedUri(t) <==> CutAlike(s, t)
    ensures TextFits(s) ==> ParsedUri(s) == ParsedUri(t)
  {
    hide DissectRest, ComponentsOf, Run, SameButHexCase, RawsAlike, RawFits, Lower;
    var n := SameScheme(s, t);
    InsideRun(s, SchemePart);
    InsideRun(t, SchemePart);
    ExactIs(s, SchemePart);
    if 0 < n < |s| && n < U16 && s[n] == ':' {
      assert s[n..][1..] == s[n + 1..] && t[n..][1..] == t[n + 1..];
      SameColon(s[n..], t[n..]);
      SameRest(s[..n], t[..n], s[n + 1..], t[n + 1..]);
    }
  }

  lemma SameColon(a: string, b: string)
    requires SameButHexCase(a, b) && a != "" && a[0] == ':'
    ensures b != "" && SameButHexCase(a[1..], b[1..])
  {
  }

  lemma SameScheme(s: string, t: string) returns (n: nat)
    requires SameButCase(s, t)
    ensures n == Run(s, SchemePart) == Run(t, SchemePart) && n <= |s| == |t|
    ensures Lower(s[..n]) == Lower(t[..n]) && SameButHexCase(s[n..], t[n..])
    ensures n < |s| ==> (s[n] == ':' <==> t[n] == ':')
  {
    hide Run;
    n := Run(s, SchemePart);
    forall i | 0 <= i < n ensures SchemePart.Has(t[i]) {
      assert Lower(s[..n])[i] == ToLower(s[i]) && Lower(t[..n])[i] == ToLower(t[i]);
    }
    if n < |s| {
      assert s[n..][0] == s[n] && t[n..][0] == t[n];
    }
    RunIs(t, SchemePart, n);
  }

  lemma {:induction false} SameSelf(a: string)
    requires '%' !in a
    ensures SameButHexCase(a, a)
  {
    if a != "" { SameSelf(a[1..]); }
  }

  lemma TripletsSame(rest: string)
    requires '%' !in rest
    ensures SameButCase("a" + (":" + ("%af" + rest)), "a" + (":" + ("%AF" + rest)))
  {
    var x, y := "%af" + rest, "%AF" + rest;
    SameSelf(rest);
    assert x[3..] == rest == y[3..] && x[0] == y[0] == '%';
    assert x[1] == 'a' && x[2] == 'f' && y[1] == 'A' && y[2] == 'F';
    assert SameButHexCase(x, y);
    assert (":" + x)[1..] == x && (":" + y)[1..] == y;
    assert SameButHexCase(":" + x, ":" + y);
    var s, t := "a" + (":" + x), "a" + (":" + y);
    assert s[0] == t[0] == 'a' && s[1] == ':' && s[1..] == ":" + x && t[1..] == ":" + y;
    RunIs(s, SchemePart, 1);
  }

  // Of 65538 bytes the scanner counts two, and they differ in case.
  lemma TripletCut()
    ensures var rest := Filled('b', 65535);
      var s, t := "a" + (":" + ("%af" + rest)), "a" + (":" + ("%AF" + rest));
      && SameButCase(s, t)
      && ParsedUri(s) == Components("a", None, "%a", None, None)
      && ParsedUri(t) == Components("a", None, "%A", None, None)
  {
    hide DecodedOption, Normalized, ParsedUri, SameButCase;
    var rest := Filled('b', 65535);
    TripletsSame(rest);
    assert ("%af" + rest)[0] == '%' && ("%AF" + rest)[0] == '%';
    PathCut("%af" + rest);
    PathCut("%AF" + rest);
    assert ("%af" + rest)[..2] == "%a" && ("%AF" + rest)[..2] == "%A";
    ShortText("%a");
    ShortText("%A");
  }
}
