// lsp/uri.cpp: percent-encoding, its inverse, and the letter case of
// percent-triplets (RFC 3986, sections 2.1 and 6.2.2.1).
module UriCodec {
  import opened Wrappers
  import opened Text

  // ---------------------------------------------------------------- encode and decode

  predicate IsKept(c: char, exclude: string) {
    c in exclude || IsAlnum(c) || c == '_' || c == '.' || c == '-'
  }

  function EncodedChar(c: char, exclude: string): (e: string)
    ensures |e| > 0
  {
    if IsKept(c, exclude) then [c]
    else ['%', HexDigit(c as int / 16 % 16), HexDigit(c as int % 16)]
  }

  function Encoded(s: string, exclude: string): string {
    if s == "" then "" else EncodedChar(s[0], exclude) + Encoded(s[1..], exclude)
  }

  method Encode(decoded: string, exclude: string) returns (encoded: string)
    ensures encoded == Encoded(decoded, exclude)
  {
    hide EncodedChar;
    encoded := "";
    assert decoded[0..] == decoded;
    for i := 0 to |decoded|
      invariant encoded + Encoded(decoded[i..], exclude) == Encoded(decoded, exclude)
    {
      DropDrop(decoded, i, 1);
      Assoc(encoded, EncodedChar(decoded[i], exclude), Encoded(decoded[i + 1..], exclude));
      encoded := AppendEncoded(encoded, decoded[i], exclude);
    }
    assert decoded[|decoded|..] == "";
  }

  method AppendEncoded(buffer: string, c: char, exclude: string) returns (encoded: string)
    ensures encoded == buffer + EncodedChar(c, exclude)
  {
    if c in exclude || IsAlnum(c) || c == '_' || c == '.' || c == '-' {
      encoded := buffer + [c];
    } else {
      encoded := buffer + "%";
      encoded := encoded + [HexDigit(c as int / 16 % 16)];
      encoded := encoded + [HexDigit(c as int % 16)];
    }
  }

  // None where the source gives up: a percent sign with two characters after it
  // that are not two hexadecimal digits.
  function DecodedOption(s: string): Option<string>
    decreases |s|
  {
    if s == "" then Some("")
    else if s[0] == '%' && |s| > 2 then
      if IsHexDigit(s[1]) && IsHexDigit(s[2]) then
        var rest :- DecodedOption(s[3..]);
        Some([(16 * HexValue(s[1]) + HexValue(s[2])) as char] + rest)
      else None
    else
      var rest :- DecodedOption(s[1..]);
      Some([s[0]] + rest)
  }

  function Decoded(s: string): string {
    match DecodedOption(s)
    case Some(r) => r
    case None => ""
  }

  function Prepended(first: string, rest: Option<string>): Option<string> {
    match rest
    case Some(r) => Some(first + r)
    case None => None
  }

  lemma PrependedTwice(a: string, b: string, rest: Option<string>)
    ensures Prepended(a, Prepended(b, rest)) == Prepended(a + b, rest)
  {
    if rest.Some? { Assoc(a, b, rest.value); }
  }

  lemma DecodedStep(s: string)
    requires s != ""
    ensures s[0] == '%' && |s| > 2 && (!IsHexDigit(s[1]) || !IsHexDigit(s[2])) ==> DecodedOption(s) == None
    ensures s[0] == '%' && |s| > 2 && IsHexDigit(s[1]) && IsHexDigit(s[2]) ==>
      DecodedOption(s) == Prepended([(16 * HexValue(s[1]) + HexValue(s[2])) as char], DecodedOption(s[3..]))
    ensures s[0] != '%' || |s| <= 2 ==> DecodedOption(s) == Prepended([s[0]], DecodedOption(s[1..]))
  {
  }

  method Decode(encoded: string) returns (decoded: string)
    ensures decoded == Decoded(encoded)
  {
    hide DecodedOption, HexValue, IsHexDigit;
    decoded := "";
    var i := 0;
    assert encoded[0..] == encoded;
    PrependedNothing(DecodedOption(encoded));
    while i < |encoded|
      invariant i <= |encoded|
      invariant DecodedOption(encoded) == Prepended(decoded, DecodedOption(encoded[i..]))
    {
      DecodedStep(encoded[i..]);
      if encoded[i] == '%' && i + 2 < |encoded| {
        if !IsHexDigit(encoded[i + 1]) || !IsHexDigit(encoded[i + 2]) {
          return "";
        }
        var c := (16 * HexValue(encoded[i + 1]) + HexValue(encoded[i + 2])) as char;
        DropDrop(encoded, i, 3);
        PrependedTwice(decoded, [c], DecodedOption(encoded[i + 3..]));
        decoded := decoded + [c];
        i := i + 3;
      } else {
        DropDrop(encoded, i, 1);
        PrependedTwice(decoded, [encoded[i]], DecodedOption(encoded[i + 1..]));
        decoded := decoded + [encoded[i]];
        i := i + 1;
      }
    }
    assert encoded[i..] == "";
    DecodedNothing();
    assert decoded + "" == decoded;
  }

  lemma PrependedNothing(rest: Option<string>)
    ensures Prepended("", rest) == rest
  {
    if rest.Some? { assert "" + rest.value == rest.value; }
  }

  lemma DecodedNothing()
    ensures DecodedOption("") == Some("")
  {
  }

  lemma DecodeEncodedChar(c: char, exclude: string, rest: string)
    requires IsByte(c) && '%' !in exclude
    ensures DecodedOption(EncodedChar(c, exclude) + rest) == Prepended([c], DecodedOption(rest))
  {
    hide DecodedOption, HexDigit;
    if IsKept(c, exclude) {
      assert ([c] + rest)[1..] == rest;
      DecodedStep([c] + rest);
    } else {
      ByteDigits(c);
      DecodeTriplet(c as int / 16, c as int % 16, rest);
    }
  }

  lemma ByteDigits(c: char)
    requires IsByte(c)
    ensures c as int / 16 % 16 == c as int / 16 && (16 * (c as int / 16) + c as int % 16) as char == c
  {
  }

  lemma DecodeTriplet(high: nat, low: nat, rest: string)
    requires high < 16 && low < 16
    ensures var e := ['%', HexDigit(high), HexDigit(low)];
      DecodedOption(e + rest) == Prepended([(16 * high + low) as char], DecodedOption(rest))
  {
    hide DecodedOption;
    var e := ['%', HexDigit(high), HexDigit(low)];
    DecodedStep(e + rest);
    assert (e + rest)[1] == e[1] && (e + rest)[2] == e[2] && (e + rest)[3..] == rest;
  }

  lemma {:induction false} DecodeEncodedOption(s: string, exclude: string)
    requires AllBytes(s) && '%' !in exclude
    ensures DecodedOption(Encoded(s, exclude)) == Some(s)
  {
    hide DecodedOption, EncodedChar;
    if s == "" {
      DecodedNothing();
    } else {
      assert s[0] in s;
      forall c | c in s[1..] ensures IsByte(c) { assert c in s; }
      DecodeEncodedOption(s[1..], exclude);
      DecodeEncodedChar(s[0], exclude, Encoded(s[1..], exclude));
      assert [s[0]] + s[1..] == s;
    }
  }

  lemma {:induction false} DecodedLength(s: string)
    ensures DecodedOption(s).Some? ==> |DecodedOption(s).value| <= |s|
    decreases |s|
  {
    hide DecodedOption;
    if s == "" {
      DecodedNothing();
    } else {
      DecodedStep(s);
      DecodedLength(s[1..]);
      if |s| > 2 { DecodedLength(s[3..]); }
    }
  }

  lemma {:induction false} EncodedLength(s: string, exclude: string)
    ensures |s| <= |Encoded(s, exclude)| <= 3 * |s|
  {
    hide EncodedChar;
    if s != "" {
      EncodedLength(s[1..], exclude);
      EncodedCharLength(s[0], exclude);
    }
  }

  lemma EncodedCharLength(c: char, exclude: string)
    ensures |EncodedChar(c, exclude)| == if IsKept(c, exclude) then 1 else 3
  {
  }

  // An encoded text that is cut short by more than two triplets decodes to fewer
  // characters than it was made from.
  lemma {:induction false} CutEncoded(s: string, exclude: string, m: nat)
    requires '%' !in exclude && m + 6 < |Encoded(s, exclude)|
    ensures var d := DecodedOption(Encoded(s, exclude)[..m]); d.Some? ==> |d.value| < |s|
    decreases |s|
  {
    hide DecodedOption, EncodedChar, IsKept;
    EncodedLength(s, exclude);
    var e := Encoded(s, exclude);
    var first, rest := EncodedChar(s[0], exclude), Encoded(s[1..], exclude);
    EncodedCharLength(s[0], exclude);
    if m < |first| {
      DecodedLength(e[..m]);
    } else {
      var k := m - |first|;
      CutEncoded(s[1..], exclude, k);
      assert e[..m] == first + rest[..k];
      DecodedFirst(s[0], exclude, rest[..k]);
    }
  }

  lemma DecodedFirst(c: char, exclude: string, rest: string)
    requires '%' !in exclude
    ensures DecodedOption(EncodedChar(c, exclude) + rest).Some? ==>
      && DecodedOption(rest).Some?
      && |DecodedOption(EncodedChar(c, exclude) + rest).value| == 1 + |DecodedOption(rest).value|
  {
    hide DecodedOption;
    var e := EncodedChar(c, exclude);
    DecodedStep(e + rest);
    Split(e, rest);
    assert (e + rest)[0] == e[0];
    if !IsKept(c, exclude) { assert (e + rest)[1] == e[1] && (e + rest)[2] == e[2]; }
  }

  // Decoding undoes encoding on every byte string exactly for the exclude sets
  // without a percent sign.
  lemma DecodeEncode(exclude: string)
    ensures (forall s | AllBytes(s) :: Decoded(Encoded(s, exclude)) == s) <==> '%' !in exclude
  {
    if '%' !in exclude {
      forall s | AllBytes(s) ensures Decoded(Encoded(s, exclude)) == s {
        DecodeEncodedOption(s, exclude);
      }
    } else {
      var s := "%41";
      KeptAsIs(s, exclude);
      DecodedStep(s);
      assert s[3..] == "";
      assert Decoded(s) == "A" != s;
    }
  }

  lemma {:induction false} KeptAsIs(s: string, exclude: string)
    requires forall c | c in s :: IsKept(c, exclude)
    ensures Encoded(s, exclude) == s
  {
    if s != "" {
      assert s[0] in s;
      KeptAsIs(s[1..], exclude);
      assert s == [s[0]] + s[1..];
    }
  }

  // ---------------------------------------------------------------- letter case of triplets

  function Normalized(s: string): (n: string)
    ensures |n| == |s|
    decreases |s|
  {
    if s == "" then ""
    else if s[0] == '%' && |s| > 2 then ['%', ToUpper(s[1]), ToUpper(s[2])] + Normalized(s[3..])
    else [s[0]] + Normalized(s[1..])
  }

  function RangeEnd(str: string, first: nat, count: nat): nat {
    if first + count <= |str| then first + count else |str|
  }

  // The text with its characters from first up to i replaced by done.
  ghost predicate Normalizing(str: string, first: nat, end: nat, i: nat, done: string, data: string) {
    && first <= i <= end <= |str| && |done| == i - first
    && data == str[..first] + done + str[i..]
    && done + Normalized(str[i..end]) == Normalized(str[first..end])
  }

  // normalizeEncodedCase changes nothing outside its range.
  method NormalizeEncodedCase(str: string, first: nat, count: nat) returns (data: string)
    requires first <= |str|
    ensures var end := RangeEnd(str, first, count);
      data == str[..first] + Normalized(str[first..end]) + str[end..]
  {
    hide Normalized, ToUpper, Normalizing;
    data := str;
    var end := RangeEnd(str, first, count);
    var i := first;
    ghost var done := "";
    NormalizingStart(str, first, end);
    while i < end
      invariant i <= end <= |str| == |data| && Normalizing(str, first, end, i, done, data)
    {
      if data[i] == '%' && i + 2 < end {
        done := NormalizingTriplet(str, first, end, i, done, data);
        var j := i + 1;
        data := data[j := ToUpper(data[j])];
        j := j + 1;
        data := data[j := ToUpper(data[j])];
        i := i + 2;
      } else {
        done := NormalizingKept(str, first, end, i, done, data);
      }
      i := i + 1;
    }
    NormalizingEnd(str, first, end, i, done, data);
  }

  lemma NormalizingStart(str: string, first: nat, end: nat)
    requires first <= end <= |str|
    ensures Normalizing(str, first, end, first, "", str)
  {
    hide Normalized;
    assert "" + Normalized(str[first..end]) == Normalized(str[first..end]);
  }

  lemma NormalizingTriplet(str: string, first: nat, end: nat, i: nat, done: string, data: string) returns (more: string)
    requires Normalizing(str, first, end, i, done, data) && i + 2 < end && |data| == |str| && data[i] == '%'
    ensures Normalizing(str, first, end, i + 3, more,
      data[i + 1 := ToUpper(data[i + 1])][i + 2 := ToUpper(data[i + 2])])
  {
    hide Normalized, ToUpper;
    NotYetChanged(str, first, i, done, data);
    NormalizedStep(str[i..end]);
    SliceDrop(str, i, end, 3);
    var triplet := ['%', ToUpper(str[i + 1]), ToUpper(str[i + 2])];
    Assoc(done, triplet, Normalized(str[i + 3..end]));
    more := done + triplet;
    UpdatedTriplet(str, first, i, done, data, data[i + 1 := ToUpper(data[i + 1])][i + 2 := ToUpper(data[i + 2])]);
  }

  lemma NormalizingKept(str: string, first: nat, end: nat, i: nat, done: string, data: string) returns (more: string)
    requires Normalizing(str, first, end, i, done, data) && i < end && |data| == |str|
      && !(data[i] == '%' && i + 2 < end)
    ensures Normalizing(str, first, end, i + 1, more, data)
  {
    hide Normalized;
    NotYetChanged(str, first, i, done, data);
    NormalizedStep(str[i..end]);
    SliceDrop(str, i, end, 1);
    Assoc(done, [str[i]], Normalized(str[i + 1..end]));
    NextUnchanged(str, first, i, done);
    more := done + [str[i]];
  }

  lemma NormalizingEnd(str: string, first: nat, end: nat, i: nat, done: string, data: string)
    requires Normalizing(str, first, end, i, done, data) && i >= end
    ensures data == str[..first] + Normalized(str[first..end]) + str[end..]
  {
    hide Normalized;
    NormalizedStep(str[end..end]);
    assert done + "" == done;
  }

  lemma SliceDrop(str: string, i: nat, end: nat, k: nat)
    requires i + k <= end <= |str|
    ensures str[i..end][k..] == str[i + k..end]
  {
  }

  lemma NotYetChanged(str: string, first: nat, i: nat, done: string, data: string)
    requires first <= i <= |str| && |done| == i - first && data == str[..first] + done + str[i..]
    ensures |data| == |str| && forall j | i <= j < |str| :: data[j] == str[j]
  {
  }

  lemma NextUnchanged(str: string, first: nat, i: nat, done: string)
    requires first <= i < |str|
    ensures str[..first] + done + str[i..] == str[..first] + (done + [str[i]]) + str[i + 1..]
  {
  }

  lemma NormalizedStep(s: string)
    ensures s == "" ==> Normalized(s) == ""
    ensures s != "" && s[0] == '%' && |s| > 2 ==>
      Normalized(s) == ['%', ToUpper(s[1]), ToUpper(s[2])] + Normalized(s[3..])
    ensures s != "" && !(s[0] == '%' && |s| > 2) ==> Normalized(s) == [s[0]] + Normalized(s[1..])
  {
  }

  lemma UpdatedTriplet(str: string, first: nat, i: nat, done: string, before: string, after: string)
    requires first <= i && i + 2 < |str| && str[i] == '%'
    requires |done| == i - first
    requires before == str[..first] + done + str[i..]
    requires after == before[i + 1 := ToUpper(before[i + 1])][i + 2 := ToUpper(before[i + 2])]
    ensures after == str[..first] + (done + ['%', ToUpper(str[i + 1]), ToUpper(str[i + 2])]) + str[i + 3..]
  {
    assert before[i + 1] == str[i + 1] && before[i + 2] == str[i + 2];
  }

  lemma {:induction false} NormalizeTwice(s: string)
    ensures Normalized(Normalized(s)) == Normalized(s)
    decreases |s|
  {
    hide Normalized;
    NormalizedStep(s);
    NormalizedStep(Normalized(s));
    if s != "" {
      if s[0] == '%' && |s| > 2 {
        NormalizeTwice(s[3..]);
        Split(['%', ToUpper(s[1]), ToUpper(s[2])], Normalized(s[3..]));
      } else {
        NormalizeTwice(s[1..]);
        Split([s[0]], Normalized(s[1..]));
      }
    }
  }

  // ---------------------------------------------------------------- texts that differ in hex case only

  // Every percent sign starts a triplet, and the two texts differ at most in the
  // letter case of the hexadecimal digits of their triplets.
  ghost predicate SameButHexCase(a: string, b: string)
    decreases |a|
  {
    |a| == |b| &&
    (a == "" ||
     if a[0] == '%' then
       && |a| > 2 && b[0] == '%'
       && IsHexDigit(a[1]) && IsHexDigit(a[2]) && IsHexDigit(b[1]) && IsHexDigit(b[2])
       && ToUpper(a[1]) == ToUpper(b[1]) && ToUpper(a[2]) == ToUpper(b[2])
       && SameButHexCase(a[3..], b[3..])
     else a[0] == b[0] && SameButHexCase(a[1..], b[1..]))
  }

  lemma {:induction false} SameNormalized(a: string, b: string)
    requires SameButHexCase(a, b)
    ensures Normalized(a) == Normalized(b)
    decreases |a|
  {
    if a != "" {
      if a[0] == '%' { SameNormalized(a[3..], b[3..]); } else { SameNormalized(a[1..], b[1..]); }
    }
  }

  // What is left of a triplet that the end of the text cuts in two.
  function Unfinished(s: string): string
    decreases |s|
  {
    if s == "" then ""
    else if s[0] != '%' then Unfinished(s[1..])
    else if |s| > 2 then Unfinished(s[3..])
    else s
  }

  lemma {:induction false} Complete(a: string, b: string)
    requires SameButHexCase(a, b)
    ensures Unfinished(a) == "" == Unfinished(b)
    decreases |a|
  {
    if a != "" {
      if a[0] == '%' { Complete(a[3..], b[3..]); } else { Complete(a[1..], b[1..]); }
    }
  }

  lemma ShortText(s: string)
    requires s != "" && s[0] == '%' && |s| <= 2
    ensures DecodedOption(s) == Some(s) && Normalized(s) == s && Unfinished(s) == s
  {
    assert s[1..] != "" ==> s[1..][1..] == "";
    assert s == [s[0]] + s[1..];
    if |s| == 2 { assert s[1..] == [s[1]] + ""; }
  }

  lemma PrependedSame(first: string, a: Option<string>, b: Option<string>)
    ensures Prepended(first, a) == Prepended(first, b) <==> a == b
    ensures Prepended(first, a).Some? <==> a.Some?
    ensures Prepended(first, b).Some? <==> b.Some?
  {
    if a.Some? && b.Some? {
      Split(first, a.value);
      Split(first, b.value);
    }
  }

  // Cut short, such texts decode alike exactly when the cut leaves the same piece
  // of a triplet.
  lemma {:induction false} CutDecoded(a: string, b: string, m: nat)
    requires SameButHexCase(a, b) && m <= |a|
    ensures |a| == |b| && DecodedOption(a[..m]).Some? && DecodedOption(b[..m]).Some?
    ensures DecodedOption(a[..m]) == DecodedOption(b[..m]) <==> Unfinished(a[..m]) == Unfinished(b[..m])
    decreases |a|
  {
    hide DecodedOption, Unfinished;
    if m == 0 {
      DecodedNothing();
    } else if a[0] == '%' && m <= 2 {
      ShortText(a[..m]);
      ShortText(b[..m]);
    } else {
      var k := if a[0] == '%' then 3 else 1;
      CutStep(a, b, m, k);
      DecodedAlike(a[..m], b[..m], k);
      CutDecoded(a[k..], b[k..], m - k);
    }
  }

  lemma CutStep(a: string, b: string, m: nat, k: nat)
    requires SameButHexCase(a, b) && a != "" && k == (if a[0] == '%' then 3 else 1) && k <= m <= |a|
    ensures |a| == |b| && SameButHexCase(a[k..], b[k..])
    ensures a[..m][k..] == a[k..][..m - k] && b[..m][k..] == b[k..][..m - k]
    ensures Unfinished(a[..m]) == Unfinished(a[k..][..m - k]) && Unfinished(b[..m]) == Unfinished(b[k..][..m - k])
    ensures b[0] == a[0] && (k == 3 ==> HexValue(a[1]) == HexValue(b[1]) && HexValue(a[2]) == HexValue(b[2]))
    ensures k == 3 ==> IsHexDigit(a[1]) && IsHexDigit(a[2]) && IsHexDigit(b[1]) && IsHexDigit(b[2])
    ensures k == 3 ==> ToUpper(a[1]) == ToUpper(b[1]) && ToUpper(a[2]) == ToUpper(b[2])
  {
    assert a[..m][k..] == a[k..][..m - k] && b[..m][k..] == b[k..][..m - k];
  }

  lemma DecodedAlike(x: string, y: string, k: nat)
    requires x != "" && y != "" && x[0] == y[0] && k == (if x[0] == '%' then 3 else 1) && k <= |x| && k <= |y|
    requires k == 3 ==> IsHexDigit(x[1]) && IsHexDigit(x[2]) && IsHexDigit(y[1]) && IsHexDigit(y[2])
    requires k == 3 ==> HexValue(x[1]) == HexValue(y[1]) && HexValue(x[2]) == HexValue(y[2])
    ensures DecodedOption(x).Some? <==> DecodedOption(x[k..]).Some?
    ensures DecodedOption(y).Some? <==> DecodedOption(y[k..]).Some?
    ensures DecodedOption(x) == DecodedOption(y) <==> DecodedOption(x[k..]) == DecodedOption(y[k..])
  {
    hide DecodedOption, Prepended, HexValue, IsHexDigit;
    DecodedStep(x);
    DecodedStep(y);
    var first := if k == 3 then [(16 * HexValue(x[1]) + HexValue(x[2])) as char] else [x[0]];
    PrependedSame(first, DecodedOption(x[k..]), DecodedOption(y[k..]));
  }

  lemma NormalizedAlike(x: string, y: string, k: nat)
    requires x != "" && y != "" && x[0] == y[0] && k == (if x[0] == '%' then 3 else 1) && k <= |x| && k <= |y|
    requires k == 3 ==> ToUpper(x[1]) == ToUpper(y[1]) && ToUpper(x[2]) == ToUpper(y[2])
    ensures Normalized(x) == Normalized(y) <==> Normalized(x[k..]) == Normalized(y[k..])
  {
    hide Normalized, ToUpper;
    NormalizedStep(x);
    NormalizedStep(y);
    var first := if k == 3 then ['%', ToUpper(x[1]), ToUpper(x[2])] else [x[0]];
    Split(first, Normalized(x[k..]));
    Split(first, Normalized(y[k..]));
  }

  // And they normalize alike under the same condition.
  lemma {:induction false} CutNormalized(a: string, b: string, m: nat)
    requires SameButHexCase(a, b) && m <= |a|
    ensures |a| == |b|
    ensures Normalized(a[..m]) == Normalized(b[..m]) <==> Unfinished(a[..m]) == Unfinished(b[..m])
    decreases |a|
  {
    hide DecodedOption, Normalized, Unfinished;
    if m == 0 {
    } else if a[0] == '%' && m <= 2 {
      ShortText(a[..m]);
      ShortText(b[..m]);
    } else {
      var k := if a[0] == '%' then 3 else 1;
      CutStep(a, b, m, k);
      NormalizedAlike(a[..m], b[..m], k);
      CutNormalized(a[k..], b[k..], m - k);
    }
  }

  lemma {:induction false} SameDecoded(a: string, b: string)
    requires SameButHexCase(a, b)
    ensures DecodedOption(a) == DecodedOption(b)
    decreases |a|
  {
    if a != "" {
      if a[0] == '%' {
        assert HexValue(a[1]) == HexValue(b[1]) && HexValue(a[2]) == HexValue(b[2]);
        SameDecoded(a[3..], b[3..]);
      } else {
        SameDecoded(a[1..], b[1..]);
      }
    }
  }
}
