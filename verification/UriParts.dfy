// lsp/uri.cpp against RFC 3986, with the characters spelled out: where a URI text is
// taken apart, what percent-encoding keeps, and what it makes of the rest.
module UriParts {
  import opened Wrappers
  import opened Text
  import opened Alphabets
  import opened UriCodec
  import opened Uri
  import opened UriSyntax

  // RFC 3986, section 3.1.
  predicate IsSchemeChar(c: char) {
    IsLower(c) || IsUpper(c) || IsFigure(c) || c == '+' || c == '-' || c == '.'
  }

  predicate IsScheme(s: string) { s != "" && forall c | c in s :: IsSchemeChar(c) }

  function Optional(mark: string, o: Option<string>): string {
    match o
    case Some(s) => mark + s
    case None => ""
  }

  function Assembled(scheme: string, authority: Option<string>, path: string, query: Option<string>,
                     fragment: Option<string>): string {
    scheme + ":" + Optional("//", authority) + path + Optional("?", query) + Optional("#", fragment)
  }

  lemma PartsSpelled(s: string)
    ensures All(s, SchemePart) <==> forall c | c in s :: IsSchemeChar(c)
    ensures All(s, AuthorityPart) <==> Without(s, "/?#")
    ensures All(s, PathPart) <==> Without(s, "?#")
    ensures All(s, QueryPart) <==> Without(s, "#")
  {
    forall c | c in s ensures SchemePart.Has(c) <==> IsSchemeChar(c) { Classes(c); }
  }

  lemma AssembledIs(scheme: string, authority: Option<string>, path: string, query: Option<string>,
                    fragment: Option<string>)
    ensures Assembled(scheme, authority, path, query, fragment) ==
      RawText(Raw(scheme, authority, path, query, fragment))
  {
    var a, q, f := Optional("//", authority), Optional("?", query), Optional("#", fragment);
    assert Marked("//", authority) == a && Marked("?", query) == q && Marked("#", fragment) == f;
    Assoc(scheme + ":" + a + path, q, f);
    Assoc(scheme + ":" + a, path, q + f);
    Assoc(scheme + ":", a, path + (q + f));
    Assoc(scheme, ":", a + (path + (q + f)));
  }

  // The parts between the delimiters of RFC 3986, section 3, are what parse finds,
  // the scheme in lower case.  A text with an authority and no path has to end there.
  lemma PartsFound(scheme: string, authority: Option<string>, path: string, query: Option<string>,
                   fragment: Option<string>)
    requires IsScheme(scheme) && |scheme| < 0x1_0000
    requires authority.Some? ==> Without(authority.value, "/?#") && |authority.value| < 0x1_0000
    requires Without(path, "?#") && |path| < 0x1_0000
    requires authority.Some? ==> path == "" || path[0] == '/'
    requires authority.None? ==> !("//" <= path)
    requires query.Some? ==> Without(query.value, "#") && |query.value| < 0x1_0000
    requires fragment.Some? ==> |fragment.value| < 0x1_0000
    ensures ParsedUri(Assembled(scheme, authority, path, query, fragment)) ==
      if authority.Some? && path == "" && (query.Some? || fragment.Some?) then Components("", None, "", None, None)
      else Components(Lower(scheme), NormalizedOption(authority), Decoded(path), NormalizedOption(query),
                      NormalizedOption(fragment))
  {
    hide All, Lower, Decoded, Normalized, TailOf, Dissect, DissectRest, RawText, Assembled, Normalized16, TailText;
    var r := Raw(scheme, authority, path, query, fragment);
    AssembledIs(scheme, authority, path, query, fragment);
    Spelled(r);
    FragmentFits(fragment);
    if authority.None? {
      TailParsed(r);
    } else if path == "" && (query.Some? || fragment.Some?) {
      AuthorityOnly(r);
    } else {
      AuthorityText(r);
      Read(RawText(r), r);
    }
  }

  lemma Spelled(r: Raw)
    ensures All(r.scheme, SchemePart) <==> forall c | c in r.scheme :: IsSchemeChar(c)
    ensures r.authority.Some? ==> (All(r.authority.value, AuthorityPart) <==> Without(r.authority.value, "/?#"))
    ensures All(r.path, PathPart) <==> Without(r.path, "?#")
    ensures r.query.Some? ==> (All(r.query.value, QueryPart) <==> Without(r.query.value, "#"))
  {
    hide All, Without, IsSchemeChar;
    PartsSpelled(r.scheme);
    PartsSpelled(r.path);
    if r.authority.Some? { PartsSpelled(r.authority.value); }
    if r.query.Some? { PartsSpelled(r.query.value); }
  }

  lemma FragmentFits(fragment: Option<string>)
    requires fragment.Some? ==> |fragment.value| < U16
    ensures NormalizedFragment(fragment) == NormalizedOption(fragment)
  {
    hide Normalized, Normalized16;
    if fragment.Some? { Fitting(fragment.value); }
  }

  lemma TailParsed(r: Raw)
    requires r.scheme != "" && All(r.scheme, SchemePart) && r.authority.None? && All(r.path, PathPart) && RawFits(r)
    requires (r.query.Some? ==> All(r.query.value, QueryPart)) && !("//" <= r.path)
    ensures ParsedUri(RawText(r)) == ComponentsOf(r)
  {
    hide All, TailOf, Dissect, ComponentsOf, DissectRest;
    var t := TailText(r.path, r.query, r.fragment);
    assert "" + t == t;
    DissectText(r.scheme, t);
    NoSlashes(r);
    NoAuthorityHere(r.scheme, t, Wrapping);
    TailRoundTrip(r.scheme, None, r.path, r.query, r.fragment);
    Read(RawText(r), r);
  }

  lemma NoSlashes(r: Raw)
    requires !("//" <= r.path)
    ensures !("//" <= TailText(r.path, r.query, r.fragment))
  {
    var u := Marked("?", r.query) + Marked("#", r.fragment);
    assert u != "" ==> u[0] == '?' || u[0] == '#';
    if |r.path| >= 2 {
      assert (r.path + u)[..2] == r.path[..2];
      assert "//" <= r.path <==> r.path[..2] == "//";
    } else if |r.path| == 1 {
      assert u != "" ==> (r.path + u)[1] == u[0];
    } else {
      assert r.path + u == u;
    }
  }

  lemma AuthorityOnly(r: Raw)
    requires r.scheme != "" && All(r.scheme, SchemePart) && r.authority.Some? && All(r.authority.value, AuthorityPart)
    requires RawFits(r) && r.path == "" && (r.query.Some? || r.fragment.Some?)
    ensures ParsedUri(RawText(r)) == NO_URI
  {
    hide All, TailOf, Dissect, DissectRest;
    var u := TailText("", r.query, r.fragment);
    Assoc("//", r.authority.value, u);
    assert u[0] == '?' || u[0] == '#';
    RefusedText(r.scheme, r.authority.value, u);
  }

  // ---------------------------------------------------------------- texts that are no URI

  // A text that does not begin with a scheme and a colon is invalid.
  lemma NoScheme(scheme: string, rest: string)
    requires forall c | c in scheme :: IsSchemeChar(c)
    requires scheme == "" || rest == "" || (!IsSchemeChar(rest[0]) && rest[0] != ':')
    requires scheme == "" && rest != "" ==> !IsSchemeChar(rest[0])
    ensures ParsedUri(scheme + rest) == Components("", None, "", None, None)
  {
    hide DissectRest, IsSchemeChar;
    var s := scheme + rest;
    PartsSpelled(scheme);
    if rest != "" { PartsSpelled([rest[0]]); assert rest[0] in [rest[0]]; }
    forall i | 0 <= i < |scheme| ensures SchemePart.Has(s[i]) { assert s[i] == scheme[i] && scheme[i] in scheme; }
    if rest != "" { assert s[|scheme|] == rest[0]; NotInClass(rest[0]); }
    RunIs(s, SchemePart, |scheme|);
    InsideRun(s, SchemePart);
    ColonNotInClass();
  }

  lemma NotInClass(c: char)
    ensures SchemePart.Has(c) <==> IsSchemeChar(c)
  {
    Classes(c);
  }

  lemma ColonNotInClass()
    ensures !SchemePart.Has(':')
  {
  }

  // ---------------------------------------------------------------- letter case

  lemma SchemeLowered(scheme: string)
    ensures |Lower(scheme)| == |scheme|
    ensures forall i | 0 <= i < |scheme| ::
      if IsUpper(scheme[i]) then
        IsLower(Lower(scheme)[i]) && Lower(scheme)[i] as int - 'a' as int == scheme[i] as int - 'A' as int
      else Lower(scheme)[i] == scheme[i]
  {
    forall i | 0 <= i < |scheme| ensures Lower(scheme)[i] == ToLower(scheme[i]) { Cases(scheme[i]); }
  }

  // ---------------------------------------------------------------- percent-encoding

  // A text is a list of pieces: plain characters, and triplets of a percent sign and
  // two hexadecimal digits.
  datatype Piece = Plain(c: char) | Triplet(high: char, low: char)

  ghost predicate IsPiece(p: Piece) {
    match p
    case Plain(c) => c != '%'
    case Triplet(high, low) => (exists d :: Stands(high, d)) && exists d :: Stands(low, d)
  }

  function PieceText(p: Piece): string {
    match p
    case Plain(c) => [c]
    case Triplet(high, low) => ['%', high, low]
  }

  function PiecesText(ps: seq<Piece>): string { if ps == [] then "" else PieceText(ps[0]) + PiecesText(ps[1..]) }

  // What a text of pieces stands for, and the same text with its triplets in upper
  // case (RFC 3986, sections 2.1 and 6.2.2.1).
  ghost predicate Means(ps: seq<Piece>, s: string) {
    |s| == |ps| && forall i | 0 <= i < |ps| :: MeansChar(ps[i], s[i])
  }

  ghost predicate MeansChar(p: Piece, c: char) {
    match p
    case Plain(d) => c == d
    case Triplet(high, low) => exists h: nat, l: nat :: Stands(high, h) && Stands(low, l) && c as int == 16 * h + l
  }

  ghost predicate Uppercase(p: Piece, q: Piece) {
    match p
    case Plain(_) => q == p
    case Triplet(high, low) =>
      q.Triplet? && IsUpperDigit(high, q.high) && IsUpperDigit(low, q.low)
  }

  ghost predicate IsUpperDigit(c: char, u: char) {
    exists d | 0 <= d < 16 :: Stands(c, d) && u == "0123456789ABCDEF"[d]
  }

  lemma {:induction false} PiecesDecoded(ps: seq<Piece>, s: string)
    requires (forall p | p in ps :: IsPiece(p)) && Means(ps, s)
    ensures DecodedOption(PiecesText(ps)) == Some(s)
  {
    hide DecodedOption, IsPiece, MeansChar, PieceText;
    if ps == [] {
      DecodedNothing();
    } else {
      assert ps[0] in ps && MeansChar(ps[0], s[0]) && s == [s[0]] + s[1..];
      assert forall p | p in ps[1..] :: p in ps;
      PiecesDecoded(ps[1..], s[1..]);
      PieceDecoded(ps[0], s[0], PiecesText(ps[1..]));
    }
  }

  lemma PieceDecoded(p: Piece, c: char, rest: string)
    requires IsPiece(p) && MeansChar(p, c)
    ensures DecodedOption(PieceText(p) + rest) == Prepended([c], DecodedOption(rest))
  {
    hide DecodedOption, Stands, HexValue, IsHexDigit;
    var s := PieceText(p) + rest;
    Split(PieceText(p), rest);
    DecodedStep(s);
    match p
    case Plain(d) => assert s[0] == d;
    case Triplet(high, low) =>
      var h: nat, l: nat :| Stands(high, h) && Stands(low, l) && c as int == 16 * h + l;
      assert s[0] == '%' && s[1] == high && s[2] == low;
      DigitStands(high, h);
      DigitStands(low, l);
  }

  lemma {:induction false} PiecesNormalized(ps: seq<Piece>, qs: seq<Piece>)
    requires (forall p | p in ps :: IsPiece(p)) && |qs| == |ps| && forall i | 0 <= i < |ps| :: Uppercase(ps[i], qs[i])
    ensures Normalized(PiecesText(ps)) == PiecesText(qs)
  {
    hide Normalized, IsPiece, Uppercase, PieceText;
    if ps == [] {
      NormalizedNothing();
    } else {
      assert ps[0] in ps && Uppercase(ps[0], qs[0]);
      assert forall p | p in ps[1..] :: p in ps;
      PiecesNormalized(ps[1..], qs[1..]);
      PieceNormalized(ps[0], qs[0], PiecesText(ps[1..]));
    }
  }

  lemma NormalizedNothing()
    ensures Normalized("") == ""
  {
  }

  lemma PieceNormalized(p: Piece, q: Piece, rest: string)
    requires IsPiece(p) && Uppercase(p, q)
    ensures Normalized(PieceText(p) + rest) == PieceText(q) + Normalized(rest)
  {
    hide Normalized, Stands, HexValue, IsHexDigit, ToUpper;
    var s := PieceText(p) + rest;
    Split(PieceText(p), rest);
    NormalizedStep(s);
    match p
    case Plain(d) => assert s[0] == d;
    case Triplet(high, low) =>
      assert s[0] == '%' && s[1] == high && s[2] == low;
      UpperIs(high, q.high);
      UpperIs(low, q.low);
  }

  lemma UpperIs(c: char, u: char)
    requires IsUpperDigit(c, u)
    ensures ToUpper(c) == u
  {
    var d :| 0 <= d < 16 && Stands(c, d) && u == "0123456789ABCDEF"[d];
    DigitStands(c, d);
  }

  // Letters, digits, '-', '.', '_' and the characters to exclude are kept; every other
  // byte is a triplet of its two digits, in upper case.
  lemma CharEncoded(c: char, exclude: string)
    requires IsByte(c)
    ensures EncodedChar(c, exclude) ==
      if IsLower(c) || IsUpper(c) || IsFigure(c) || c == '-' || c == '.' || c == '_' || c in exclude then [c]
      else ['%', "0123456789ABCDEF"[c as int / 16], "0123456789ABCDEF"[c as int % 16]]
  {
    hide HexDigit, IsAlnum;
    Classes(c);
    ByteDigits(c);
    DigitIs(c as int / 16);
    DigitIs(c as int % 16);
  }

  lemma DigitIs(n: nat)
    requires n < 16
    ensures HexDigit(n) == "0123456789ABCDEF"[n]
  {
  }

  lemma {:induction false} TextEncoded(s: string, exclude: string)
    ensures s == "" ==> Encoded(s, exclude) == ""
    ensures forall a, b | s == a + b :: Encoded(s, exclude) == Encoded(a, exclude) + Encoded(b, exclude)
    ensures |s| == 1 ==> Encoded(s, exclude) == EncodedChar(s[0], exclude)
  {
    hide EncodedChar;
    forall a, b | s == a + b ensures Encoded(s, exclude) == Encoded(a, exclude) + Encoded(b, exclude) {
      EncodedConcat(a, b, exclude);
    }
    if |s| == 1 { assert s[1..] == "" && EncodedChar(s[0], exclude) + "" == EncodedChar(s[0], exclude); }
  }

  lemma {:induction false} EncodedConcat(a: string, b: string, exclude: string)
    ensures Encoded(a + b, exclude) == Encoded(a, exclude) + Encoded(b, exclude)
  {
    hide EncodedChar;
    if a == "" {
      assert a + b == b;
    } else {
      EncodedConcat(a[1..], b, exclude);
      assert (a + b)[1..] == a[1..] + b && (a + b)[0] == a[0];
    }
  }

  // ---------------------------------------------------------------- writing

  // toString puts the components back between the same delimiters, the path encoded
  // but for its slashes.
  lemma PartsWritten(c: Components)
    ensures c.scheme != "" ==>
      UriText(c) == Assembled(c.scheme, c.authority, Encoded(c.path, "/"), c.query, c.fragment)
    ensures c.scheme == "" ==> UriText(c) == ""
  {
    hide Encoded, Assembled;
    AssembledIs(c.scheme, c.authority, Encoded(c.path, "/"), c.query, c.fragment);
  }

  // The setters refuse what does not belong into their part, and nothing else.
  lemma SettersRefuse(c: Components, s: string)
    ensures WithScheme(c, s) ==
      if (forall x | x in s :: IsSchemeChar(x)) && |s| < 0x1_0000 then Some(c.(scheme := Lower(s))) else None
    ensures WithAuthority(c, s) ==
      if Without(s, "/?#") && |s| < 0x1_0000 then Some(c.(authority := Some(Normalized(s)))) else None
    ensures WithQuery(c, s) ==
      if Without(s, "#") && |s| < 0x1_0000 then Some(c.(query := Some(Normalized(s)))) else None
  {
    hide Lower, Normalized, All, Without, IsSchemeChar;
    PartsSpelled(s);
  }
}
