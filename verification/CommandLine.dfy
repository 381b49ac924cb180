// lsp/process.cpp: quoting of Windows command-line arguments, against the rules
// by which Microsoft's C run-time takes a command line apart.
module CommandLine {
  import opened Text

  function Repeat(c: char, n: nat): string { seq(n, _ => c) }

  // The backslashes a text starts with.
  function Slashes(s: string): (n: nat)
    ensures n <= |s| && s[..n] == Repeat('\\', n)
    ensures n < |s| ==> s[n] != '\\'
  {
    if s != "" && s[0] == '\\' then 1 + Slashes(s[1..]) else 0
  }

  // ---------------------------------------------------------------- escapeArg

  const SPECIAL := " \t\n\U{0B}\\\","

  predicate NeedsQuotes(arg: string) { exists c | c in arg :: c in SPECIAL }

  // What stands between the quotes.
  function Body(s: string): string
    decreases |s|, 1
  {
    BodyAfter(Slashes(s), s[Slashes(s)..])
  }

  // The same after k backslashes.
  function BodyAfter(k: nat, rest: string): string
    decreases |rest|, 0
  {
    if rest == "" then Repeat('\\', 2 * k)
    else if rest[0] == '"' then Repeat('\\', 2 * k + 1) + "\"" + Body(rest[1..])
    else Repeat('\\', k) + [rest[0]] + Body(rest[1..])
  }

  function Escaped(arg: string): string {
    if NeedsQuotes(arg) then "\"" + Body(arg) + "\"" else arg
  }

  method FindFirstOf(s: string, set_: string) returns (found: bool)
    ensures found <==> exists c | c in s :: c in set_
  {
    for i := 0 to |s|
      invariant forall c | c in s[..i] :: c !in set_
    {
      if s[i] in set_ { return true; }
      assert s[..i + 1] == s[..i] + [s[i]];
    }
    assert s[..|s|] == s;
    found := false;
  }

  // What is left to write once the argument is escaped up to an index.
  ghost predicate EscapedUpTo(arg: string, it: nat, escaped: string) {
    it <= |arg| && escaped + Body(arg[it..]) == "\"" + Body(arg)
  }

  method EscapeArg(arg: string) returns (escaped: string)
    ensures escaped == Escaped(arg)
  {
    hide Body, Repeat, Slashes, EscapedUpTo;
    var special := FindFirstOf(arg, SPECIAL);
    if !special {
      return arg;
    }
    escaped := "\"";
    var it := 0;
    NothingEscaped(arg);
    while true
      invariant it <= |arg| && EscapedUpTo(arg, it, escaped)
      decreases |arg| - it
    {
      var numBackslashes := 0;
      ghost var start, before := it, escaped;
      while it != |arg| && arg[it] == '\\'
        invariant start <= it <= |arg| && it == start + numBackslashes
        invariant Slashes(arg[start..]) == numBackslashes + Slashes(arg[it..])
      {
        SlashesNext(arg, it);
        it := it + 1;
        numBackslashes := numBackslashes + 1;
      }
      SlashesDone(arg, it);
      BodyAt(arg, start);
      if it == |arg| {
        LeftToEscape(arg, start, escaped);
        escaped := escaped + Repeat('\\', numBackslashes * 2);
        break;
      }
      ghost var slashes := Repeat('\\', if arg[it] == '"' then numBackslashes * 2 + 1 else numBackslashes);
      EscapedMore(arg, start, it, escaped, slashes);
      if arg[it] == '"' {
        escaped := escaped + Repeat('\\', numBackslashes * 2 + 1);
        escaped := escaped + "\"";
      } else {
        escaped := escaped + Repeat('\\', numBackslashes);
        escaped := escaped + [arg[it]];
      }
      assert escaped == before + slashes + [arg[it]];
      it := it + 1;
    }
    escaped := escaped + "\"";
  }

  lemma NothingEscaped(arg: string)
    ensures EscapedUpTo(arg, 0, "\"")
  {
    assert arg[0..] == arg;
  }

  // The text behind an index begins with backslashes, and they are followed by the
  // end, a quote or some other character.
  lemma BodyAt(arg: string, start: nat)
    requires start <= |arg|
    ensures var k := Slashes(arg[start..]);
      var it := start + k;
      Body(arg[start..]) ==
        if it == |arg| then Repeat('\\', k * 2)
        else Repeat('\\', if arg[it] == '"' then k * 2 + 1 else k) + [arg[it]] + Body(arg[it + 1..])
  {
    hide Body, Repeat, Slashes;
    var k := Slashes(arg[start..]);
    BodyStep(arg[start..]);
    DropDrop(arg, start, k);
    if start + k < |arg| { DropDrop(arg, start + k, 1); }
  }

  lemma EscapedMore(arg: string, start: nat, it: nat, escaped: string, slashes: string)
    requires EscapedUpTo(arg, start, escaped) && it < |arg|
    requires Body(arg[start..]) == slashes + [arg[it]] + Body(arg[it + 1..])
    ensures EscapedUpTo(arg, it + 1, escaped + slashes + [arg[it]])
  {
    hide Body;
    Glue(escaped, slashes, [arg[it]], Body(arg[it + 1..]));
  }

  lemma LeftToEscape(arg: string, it: nat, escaped: string)
    requires EscapedUpTo(arg, it, escaped)
    ensures it <= |arg| && escaped + Body(arg[it..]) == "\"" + Body(arg)
  {
  }

  lemma Glue(a: string, b: string, c: string, d: string)
    ensures a + b + c + d == a + (b + c + d)
  {
  }

  lemma SlashesNext(s: string, i: nat)
    requires i < |s| && s[i] == '\\'
    ensures Slashes(s[i..]) == 1 + Slashes(s[i + 1..])
  {
    DropDrop(s, i, 1);
  }

  lemma SlashesDone(s: string, i: nat)
    requires i <= |s| && (i < |s| ==> s[i] != '\\')
    ensures Slashes(s[i..]) == 0
  {
  }

  lemma BodyStep(s: string)
    ensures var k, rest := Slashes(s), s[Slashes(s)..];
      && (rest == "" ==> Body(s) == Repeat('\\', 2 * k))
      && (rest != "" && rest[0] == '"' ==> Body(s) == Repeat('\\', 2 * k + 1) + "\"" + Body(rest[1..]))
      && (rest != "" && rest[0] != '"' ==> Body(s) == Repeat('\\', k) + [rest[0]] + Body(rest[1..]))
  {
    hide Slashes, Repeat, Body;
    BodyIs(s);
  }

  lemma BodyIs(s: string)
    ensures Body(s) == BodyAfter(Slashes(s), s[Slashes(s)..])
  {
    hide BodyAfter, Slashes;
  }

  // An argument is written as it is exactly when it holds no blank, tab, line feed,
  // vertical tab, backslash, quotation mark or comma; else between quotation marks.
  lemma QuotedExactly(arg: string)
    ensures (forall c | c in arg ::
               c != ' ' && c != '\t' && c != '\n' && c as int != 11 && c != '\\' && c != '"' && c != ',') ==>
      Escaped(arg) == arg
    ensures (exists c | c in arg ::
               c == ' ' || c == '\t' || c == '\n' || c as int == 11 || c == '\\' || c == '"' || c == ',') ==>
      |Escaped(arg)| > |arg| && Escaped(arg)[0] == '"' == Escaped(arg)[|Escaped(arg)| - 1]
  {
    hide Body;
    assert SPECIAL == [' ', '\t', '\n', 11 as char, '\\', '"', ','];
    if NeedsQuotes(arg) { BodyLength(arg); }
  }

  lemma {:induction false} BodyLength(s: string)
    ensures |Body(s)| >= |s|
    decreases |s|
  {
    hide Body, Repeat;
    BodyStep(s);
    var k, rest := Slashes(s), s[Slashes(s)..];
    RepeatLength('\\', k);
    RepeatLength('\\', 2 * k);
    RepeatLength('\\', 2 * k + 1);
    if rest != "" { BodyLength(rest[1..]); }
  }

  lemma RepeatLength(c: char, n: nat)
    ensures |Repeat(c, n)| == n
  {
  }

  // ---------------------------------------------------------------- buildCmdLine

  function ArgumentTail(args: seq<string>): string {
    if args == [] then "" else " " + Escaped(args[0]) + ArgumentTail(args[1..])
  }

  function CommandText(executable: string, args: seq<string>): string {
    Escaped(executable) + ArgumentTail(args)
  }

  method BuildCmdLine(executable: string, args: seq<string>) returns (cmdLine: string)
    ensures cmdLine == CommandText(executable, args)
  {
    hide Escaped;
    cmdLine := EscapeArg(executable);
    assert args[0..] == args;
    for i := 0 to |args|
      invariant cmdLine + ArgumentTail(args[i..]) == CommandText(executable, args)
    {
      var arg := EscapeArg(args[i]);
      assert args[i..][1..] == args[i + 1..];
      Assoc(cmdLine, " " + arg, ArgumentTail(args[i + 1..]));
      cmdLine := cmdLine + (" " + arg);
    }
    assert args[|args|..] == [];
    assert cmdLine + "" == cmdLine;
  }

  // ---------------------------------------------------------------- the run-time's rules

  predicate IsBlank(c: char) { c == ' ' || c == '\t' }

  // One argument and what follows it. Backslashes count only before a quotation
  // mark: 2n of them stand for n, and the mark begins or ends a quoted part;
  // 2n + 1 stand for n and a literal mark. Inside a quoted part a doubled mark
  // is a literal one. A blank outside ends the argument.
  function TakeArgument(s: string, quoted: bool): (r: (string, string))
    ensures |r.1| <= |s|
    ensures s != "" && !quoted && !IsBlank(s[0]) ==> |r.1| < |s|
    ensures r.1 == "" || IsBlank(r.1[0])
    decreases |s|
  {
    if s == "" then ("", "")
    else if s[0] == '\\' then
      var k, rest := Slashes(s), s[Slashes(s)..];
      if rest == "" || rest[0] != '"' then
        var (a, t) := TakeArgument(rest, quoted); (Repeat('\\', k) + a, t)
      else if k % 2 == 0 then
        var (a, t) := TakeArgument(rest, quoted); (Repeat('\\', k / 2) + a, t)
      else
        var (a, t) := TakeArgument(rest[1..], quoted); (Repeat('\\', k / 2) + "\"" + a, t)
    else if s[0] == '"' then
      if quoted && |s| > 1 && s[1] == '"' then
        var (a, t) := TakeArgument(s[2..], quoted); ("\"" + a, t)
      else TakeArgument(s[1..], !quoted)
    else if !quoted && IsBlank(s[0]) then ("", s)
    else
      var (a, t) := TakeArgument(s[1..], quoted); ([s[0]] + a, t)
  }

  function Arguments(s: string): seq<string>
    decreases |s|
  {
    if s == "" then []
    else if IsBlank(s[0]) then Arguments(s[1..])
    else
      var (a, t) := TakeArgument(s, false);
      [a] + Arguments(t)
  }

  // The program name comes first: quotation marks group, backslashes are plain.
  function TakeProgram(s: string, quoted: bool): (string, string) {
    if s == "" then ("", "")
    else if s[0] == '"' then TakeProgram(s[1..], !quoted)
    else if !quoted && IsBlank(s[0]) then ("", s)
    else
      var (a, t) := TakeProgram(s[1..], quoted); ([s[0]] + a, t)
  }

  // argv[0] and the arguments.
  function Parsed(cmdLine: string): (string, seq<string>) {
    var (name, t) := TakeProgram(cmdLine, false);
    (name, Arguments(t))
  }

  // ---------------------------------------------------------------- arguments come back

  predicate EndsArgument(tail: string) { tail == "" || tail[0] == ' ' }

  lemma {:induction false} SlashesOf(k: nat, t: string)
    requires t == "" || t[0] != '\\'
    ensures var s := Repeat('\\', k) + t; Slashes(s) == k && s[k..] == t && (k > 0 ==> s[0] == '\\')
  {
    var s := Repeat('\\', k) + t;
    if k == 0 {
      assert s == t;
    } else {
      SlashesOf(k - 1, t);
      assert s[1..] == Repeat('\\', k - 1) + t;
    }
  }

  lemma TakeStep(s: string, quoted: bool)
    requires s != "" && s[0] == '\\'
    ensures var k, rest := Slashes(s), s[Slashes(s)..];
      && (rest == "" || rest[0] != '"' ==>
            TakeArgument(s, quoted) == Taken(Repeat('\\', k), TakeArgument(rest, quoted)))
      && (rest != "" && rest[0] == '"' && k % 2 == 0 ==>
            TakeArgument(s, quoted) == Taken(Repeat('\\', k / 2), TakeArgument(rest, quoted)))
      && (rest != "" && rest[0] == '"' && k % 2 != 0 ==>
            TakeArgument(s, quoted) == Taken(Repeat('\\', k / 2) + "\"", TakeArgument(rest[1..], quoted)))
  {
  }

  function Taken(before: string, r: (string, string)): (string, string) { (before + r.0, r.1) }

  lemma TakeSlashes(k: nat, t: string, quoted: bool)
    requires t == "" || t[0] != '\\'
    ensures t == "" || t[0] != '"' ==>
      TakeArgument(Repeat('\\', k) + t, quoted) == Taken(Repeat('\\', k), TakeArgument(t, quoted))
    ensures t != "" && t[0] == '"' ==>
      TakeArgument(Repeat('\\', 2 * k) + t, quoted) == Taken(Repeat('\\', k), TakeArgument(t, quoted))
  {
    hide TakeArgument, Slashes, Repeat;
    if k == 0 {
      TakeNoSlashes(t, quoted);
    } else {
      SlashesOf(k, t);
      SlashesOf(2 * k, t);
      TakeStep(Repeat('\\', k) + t, quoted);
      TakeStep(Repeat('\\', 2 * k) + t, quoted);
    }
  }

  lemma TakeNoSlashes(t: string, quoted: bool)
    ensures TakeArgument(Repeat('\\', 0) + t, quoted) == Taken(Repeat('\\', 0), TakeArgument(t, quoted))
  {
    hide TakeArgument;
    assert Repeat('\\', 0) == "" && "" + t == t;
    assert "" + TakeArgument(t, quoted).0 == TakeArgument(t, quoted).0;
  }

  lemma TakeEscapedMark(k: nat, t: string, quoted: bool)
    ensures TakeArgument(Repeat('\\', 2 * k + 1) + ("\"" + t), quoted)
         == Taken(Repeat('\\', k) + "\"", TakeArgument(t, quoted))
  {
    hide TakeArgument, Slashes;
    SlashesOf(2 * k + 1, "\"" + t);
    TakeStep(Repeat('\\', 2 * k + 1) + ("\"" + t), quoted);
    assert ("\"" + t)[1..] == t;
  }

  lemma TakeClosingMark(tail: string)
    requires EndsArgument(tail)
    ensures TakeArgument("\"" + tail, true) == ("", tail)
  {
    assert ("\"" + tail)[1..] == tail;
  }

  lemma TakePlain(c: char, t: string, quoted: bool)
    requires c != '\\' && c != '"' && (quoted || !IsBlank(c))
    ensures TakeArgument([c] + t, quoted) == Taken([c], TakeArgument(t, quoted))
  {
    assert ([c] + t)[1..] == t;
  }

  lemma {:induction false} TakeBody(s: string, tail: string)
    requires EndsArgument(tail)
    ensures TakeArgument(Body(s) + ("\"" + tail), true) == (s, tail)
    decreases |s|
  {
    hide TakeArgument, Body, Slashes, Repeat, EndsArgument;
    var k, rest, end := Slashes(s), s[Slashes(s)..], "\"" + tail;
    var slashes := Repeat('\\', k);
    BodyStep(s);
    assert s == slashes + rest;
    if rest == "" {
      TakeClosingMark(tail);
      TakeSlashes(k, end, true);
      assert slashes + "" == slashes;
    } else {
      var more := Body(rest[1..]);
      TakeBody(rest[1..], tail);
      if rest[0] == '"' {
        Glue(Repeat('\\', 2 * k + 1), "\"", more, end);
        Assoc("\"", more, end);
        TakeEscapedMark(k, more + end, true);
        assert s == slashes + "\"" + rest[1..];
      } else {
        var c := [rest[0]];
        Glue(slashes, c, more, end);
        Assoc(c, more, end);
        TakePlain(rest[0], more + end, true);
        TakeSlashes(k, c + (more + end), true);
        assert slashes + (c + rest[1..]) == s;
      }
    }
  }

  lemma {:induction false} TakeUnquoted(s: string, tail: string)
    requires EndsArgument(tail) && forall c | c in s :: c !in SPECIAL
    ensures TakeArgument(s + tail, false) == (s, tail)
  {
    hide TakeArgument;
    if s == "" {
      assert "" + tail == tail;
      TakeNothing(tail);
    } else {
      assert s[0] in s;
      forall c | c in s[1..] ensures c !in SPECIAL { assert c in s; }
      TakeUnquoted(s[1..], tail);
      TakePlain(s[0], s[1..] + tail, false);
      assert s + tail == [s[0]] + (s[1..] + tail);
      assert s == [s[0]] + s[1..];
    }
  }

  lemma TakeNothing(tail: string)
    requires EndsArgument(tail)
    ensures TakeArgument(tail, false) == ("", tail)
  {
  }

  lemma TakeOpeningMark(t: string)
    ensures TakeArgument("\"" + t, false) == TakeArgument(t, true)
  {
    assert ("\"" + t)[1..] == t;
  }

  lemma TakeEscaped(arg: string, tail: string)
    requires EndsArgument(tail)
    ensures TakeArgument(Escaped(arg) + tail, false) == (arg, tail)
    ensures arg != "" ==> Escaped(arg) != "" && !IsBlank(Escaped(arg)[0])
    ensures arg == "" ==> Escaped(arg) == ""
  {
    hide TakeArgument, Body;
    if NeedsQuotes(arg) {
      TakeBody(arg, tail);
      TakeOpeningMark(Body(arg) + ("\"" + tail));
      Glue("\"", Body(arg), "\"", tail);
      Assoc(Body(arg), "\"", tail);
    } else {
      TakeUnquoted(arg, tail);
      if arg != "" { assert arg[0] in arg; }
    }
  }

  function NonEmpty(args: seq<string>): seq<string> {
    if args == [] then []
    else (if args[0] == "" then [] else [args[0]]) + NonEmpty(args[1..])
  }

  lemma {:induction false} NonEmptyShorter(args: seq<string>)
    ensures |NonEmpty(args)| <= |args|
    ensures NonEmpty(args) == args <==> "" !in args
  {
    if args != [] {
      NonEmptyShorter(args[1..]);
      assert args == [args[0]] + args[1..];
    }
  }

  lemma TailEnds(args: seq<string>)
    ensures EndsArgument(ArgumentTail(args))
  {
    hide Escaped;
  }

  // Splitting the joined arguments gives back the list without its empty ones.
  lemma {:induction false} ArgumentsComeBack(args: seq<string>)
    ensures Arguments(ArgumentTail(args)) == NonEmpty(args)
  {
    hide Escaped, TakeArgument;
    if args != [] {
      var e, tail := Escaped(args[0]), ArgumentTail(args[1..]);
      TailEnds(args[1..]);
      TakeEscaped(args[0], tail);
      Assoc(" ", e, tail);
      assert (" " + (e + tail))[1..] == e + tail;
      ArgumentsComeBack(args[1..]);
      if args[0] == "" { assert "" + tail == tail; } else { assert (e + tail)[0] == e[0]; }
    }
  }

  // ---------------------------------------------------------------- the program name

  lemma {:induction false} ProgramHasNoMark(s: string, quoted: bool)
    ensures '"' !in TakeProgram(s, quoted).0
  {
    if s != "" {
      ProgramHasNoMark(s[1..], quoted);
      ProgramHasNoMark(s[1..], !quoted);
    }
  }

  lemma {:induction false} TakePlainProgram(s: string, t: string, quoted: bool)
    requires forall c | c in s :: c != '"' && (quoted || !IsBlank(c))
    ensures var (a, u) := TakeProgram(t, quoted); TakeProgram(s + t, quoted) == (s + a, u)
  {
    if s == "" {
      assert "" + t == t && forall a: string :: "" + a == a;
    } else {
      assert s[0] in s && (s + t)[1..] == s[1..] + t;
      forall c | c in s[1..] ensures c != '"' && (quoted || !IsBlank(c)) { assert c in s; }
      TakePlainProgram(s[1..], t, quoted);
      var a := TakeProgram(t, quoted).0;
      assert [s[0]] + (s[1..] + a) == s + a;
    }
  }

  predicate EndsInSlash(s: string) { s != "" && s[|s| - 1] == '\\' }

  // Without a quotation mark inside, escaping repeats the backslashes at the end.
  lemma {:induction false} BodyUnmarked(s: string) returns (extra: nat)
    requires '"' !in s
    ensures Body(s) == s + Repeat('\\', extra) && (extra > 0 <==> EndsInSlash(s))
    decreases |s|
  {
    hide Body, Slashes;
    BodyStep(s);
    var k, rest := Slashes(s), s[Slashes(s)..];
    var slashes := Repeat('\\', k);
    assert s == slashes + rest;
    if rest == "" {
      extra := k;
      assert Repeat('\\', 2 * k) == slashes + slashes;
      assert slashes + "" == slashes;
    } else {
      assert rest[0] in s && forall c | c in rest[1..] :: c in s;
      extra := BodyUnmarked(rest[1..]);
      assert s == slashes + [rest[0]] + rest[1..];
      Assoc(slashes + [rest[0]], rest[1..], Repeat('\\', extra));
      EndsAs(slashes + [rest[0]], rest[1..]);
    }
  }

  lemma EndsAs(a: string, b: string)
    requires a != "" && a[|a| - 1] != '\\'
    ensures EndsInSlash(a + b) <==> EndsInSlash(b)
  {
  }

  lemma TakeEscapedProgram(exe: string, tail: string)
    requires '"' !in exe && EndsArgument(tail)
    ensures var (name, t) := TakeProgram(Escaped(exe) + tail, false);
      (name == exe <==> !EndsInSlash(exe)) && t == tail
  {
    hide Body;
    if NeedsQuotes(exe) {
      var extra := BodyUnmarked(exe);
      var b, end := Body(exe), "\"" + tail;
      assert end[1..] == tail;
      TakePlainProgram(b, end, true);
      Glue("\"", b, "\"", tail);
      Assoc(b, "\"", tail);
      assert ("\"" + (b + end))[1..] == b + end;
      assert b + "" == b;
    } else {
      if exe != "" { assert exe[|exe| - 1] in exe; }
      TakePlainProgram(exe, tail, false);
      assert exe + "" == exe;
    }
  }

  // The run-time gives the program its name and its arguments back exactly when
  // no argument is empty and the name holds no quotation mark and does not end
  // in a backslash.
  lemma CommandLineRoundTrip(executable: string, args: seq<string>)
    ensures Parsed(CommandText(executable, args)) == (executable, args)
       <==> '"' !in executable && !EndsInSlash(executable) && "" !in args
  {
    hide Escaped, ArgumentTail, Arguments, TakeProgram, NonEmpty, EndsInSlash;
    var tail := ArgumentTail(args);
    ProgramHasNoMark(CommandText(executable, args), false);
    if '"' !in executable {
      TailEnds(args);
      TakeEscapedProgram(executable, tail);
      ArgumentsComeBack(args);
      NonEmptyShorter(args);
    }
  }

  // A name that ends in a backslash comes back with two.
  lemma TrailingBackslash()
    ensures Parsed(CommandText("a\\", [])) == ("a\\\\", [])
  {
    hide Body, TakeProgram;
    var exe := "a\\";
    assert exe[0] == 'a' && exe[1] == '\\' && exe[1] in exe;
    BodyStep(exe);
    BodyStep("\\");
    assert exe[1..] == "\\" && Slashes("\\") == 1 && "\\"[1..] == "";
    assert Body(exe) == "a\\\\";
    var end := "\"";
    TakePlainProgram("a\\\\", end, true);
    ClosingMark();
    assert Escaped(exe) + "" == "\"" + ("a\\\\" + end);
    OpeningMark("a\\\\" + end);
    assert "a\\\\" + "" == "a\\\\" && ArgumentTail([]) == "" && Arguments("") == [];
  }

  lemma ClosingMark()
    ensures TakeProgram("\"", true) == ("", "")
  {
    assert "\""[1..] == "";
  }

  lemma OpeningMark(t: string)
    ensures TakeProgram("\"" + t, false) == TakeProgram(t, true)
  {
    assert ("\"" + t)[1..] == t;
  }

  // An empty argument is lost.
  lemma EmptyArgument()
    ensures Arguments(ArgumentTail([""])) == []
  {
    hide ArgumentTail, Arguments;
    ArgumentsComeBack([""]);
    assert [""][1..] == [];
  }
}
