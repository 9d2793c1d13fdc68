// Command lines: quoting arguments, joining them, and reading them back by the documented rules of the
// Microsoft C runtime ("Parsing C command-line arguments").
module Quoting {
  import opened Basics

  const SLASH: char := '\\'
  const QUOTE: char := '"'

  predicate IsBlank(c: char) { c == ' ' || c == '\t' }

  // ---- quoting ----

  predicate Plain(argument: string) {
    argument != "" && forall c :: c in argument ==> !IsBlank(c) && c != QUOTE
  }

  // What follows the opening quote, with some backslashes already seen but not yet written.
  function Quoted(s: string, slashes: nat): string {
    if s == "" then Repeat(2 * slashes, SLASH) + [QUOTE]
    else if s[0] == SLASH then Quoted(s[1..], slashes + 1)
    else if s[0] == QUOTE then Repeat(2 * slashes + 1, SLASH) + ([QUOTE] + Quoted(s[1..], 0))
    else Repeat(slashes, SLASH) + ([s[0]] + Quoted(s[1..], 0))
  }

  function Quote(argument: string): string {
    if Plain(argument) then argument else [QUOTE] + Quoted(argument, 0)
  }

  // Arguments after one another with a blank between them.
  function Join(arguments: seq<string>): string {
    if arguments == [] then ""
    else if |arguments| == 1 then Quote(arguments[0])
    else Quote(arguments[0]) + ([' '] + Join(arguments[1..]))
  }

  // ---- the rules for reading ----

  function Slashes(s: string): (n: nat)
    ensures n <= |s|
    ensures n < |s| ==> s[n] != SLASH
    ensures forall i :: 0 <= i < n ==> s[i] == SLASH
  {
    if s != "" && s[0] == SLASH then 1 + Slashes(s[1..]) else 0
  }

  // Reads one argument and gives what comes after it. Backslashes count only in front of a quotation mark: each pair
  // stands for one, and an odd one makes the mark literal. Inside quotation marks blanks do not end the argument, and
  // two marks in a row stand for a literal one.
  function ParseArgument(s: string, inside: bool): (string, string)
    decreases |s|
  {
    var n := Slashes(s);
    if n > 0 then
      if n < |s| && s[n] == QUOTE then
        if n % 2 == 0 then
          var (tail, rest) := ParseArgument(s[n..], inside);
          (Repeat(n / 2, SLASH) + tail, rest)
        else
          var (tail, rest) := ParseArgument(s[n + 1..], inside);
          (Repeat(n / 2, SLASH) + ([QUOTE] + tail), rest)
      else
        var (tail, rest) := ParseArgument(s[n..], inside);
        (Repeat(n, SLASH) + tail, rest)
    else if s == "" then ("", "")
    else if s[0] == QUOTE then
      if inside && |s| > 1 && s[1] == QUOTE then
        var (tail, rest) := ParseArgument(s[2..], inside);
        ([QUOTE] + tail, rest)
      else ParseArgument(s[1..], !inside)
    else if !inside && IsBlank(s[0]) then ("", s)
    else
      var (tail, rest) := ParseArgument(s[1..], inside);
      ([s[0]] + tail, rest)
  }

  function SkipBlanks(s: string): (r: string)
    ensures |r| <= |s| && (r != "" ==> !IsBlank(r[0]))
  {
    if s != "" && IsBlank(s[0]) then SkipBlanks(s[1..]) else s
  }

  lemma {:induction false} ParseShortens(s: string, inside: bool)
    ensures |ParseArgument(s, inside).1| <= |s|
    ensures s != "" && !IsBlank(s[0]) ==> |ParseArgument(s, inside).1| < |s|
    decreases |s|
  {
    var n := Slashes(s);
    if n > 0 {
      if n < |s| && s[n] == QUOTE && n % 2 == 1 { ParseShortens(s[n + 1..], inside); } else { ParseShortens(s[n..], inside); }
    } else if s != "" {
      if s[0] == QUOTE && inside && |s| > 1 && s[1] == QUOTE {
        ParseShortens(s[2..], inside);
      } else {
        ParseShortens(s[1..], if s[0] == QUOTE then !inside else inside);
      }
    }
  }

  function ParseAll(s: string): seq<string>
    decreases |s|
  {
    var t := SkipBlanks(s);
    if t == "" then []
    else
      ParseShortens(t, false);
      var (argument, rest) := ParseArgument(t, false);
      [argument] + ParseAll(rest)
  }

  // The program name comes first and knows no backslash rules: quotation marks only keep blanks from ending it.
  function AfterProgram(s: string, inside: bool): string {
    if s == "" || (!inside && IsBlank(s[0])) then s
    else AfterProgram(s[1..], if s[0] == QUOTE then !inside else inside)
  }

  // A command line ends at its first null character.
  function UpToNull(s: string): string {
    if s == "" || s[0] == '\0' then "" else [s[0]] + UpToNull(s[1..])
  }

  // The arguments after the program name a command line hands to the program.
  function ParseCommandLine(command: string): seq<string> { ParseAll(AfterProgram(UpToNull(command), false)) }

  // ---- quoted arguments read back ----

  // What may follow an argument: nothing, or a blank.
  predicate ArgumentEnd(rest: string) { rest == "" || rest[0] == ' ' }

  lemma {:induction false} SlashesOf(n: nat, rest: string)
    requires rest == "" || rest[0] != SLASH
    ensures Slashes(Repeat(n, SLASH) + rest) == n
    ensures n <= |Repeat(n, SLASH) + rest| && (Repeat(n, SLASH) + rest)[n..] == rest
  {
    var s := Repeat(n, SLASH) + rest;
    var m := Slashes(s);
    assert s[n..] == rest;
    assert rest != "" ==> s[n] == rest[0];
    forall i | 0 <= i < n ensures s[i] == SLASH {}
  }

  lemma RepeatSnoc(n: nat, s: string)
    ensures Repeat(n, SLASH) + ([SLASH] + s) == Repeat(n + 1, SLASH) + s
    ensures Repeat(0, SLASH) + s == s
  {}

  lemma EndOfArgument(rest: string)
    requires ArgumentEnd(rest)
    ensures ParseArgument(rest, false) == ("", rest)
    ensures ParseArgument([QUOTE] + rest, true) == ("", rest)
  {
    assert ([QUOTE] + rest)[1..] == rest;
  }

  // A closing quotation mark after an even number of backslashes.
  lemma ParseClosing(k: nat, rest: string)
    requires ArgumentEnd(rest)
    ensures ParseArgument(Repeat(2 * k, SLASH) + ([QUOTE] + rest), true) == (Repeat(k, SLASH), rest)
  {
    var s := Repeat(2 * k, SLASH) + ([QUOTE] + rest);
    EndOfArgument(rest);
    SlashesOf(2 * k, [QUOTE] + rest);
    if k == 0 {
      RepeatSnoc(0, [QUOTE] + rest);
    } else {
      assert s[2 * k] == QUOTE;
      assert Repeat(k, SLASH) + "" == Repeat(k, SLASH);
    }
  }

  // A literal quotation mark, written after an odd number of backslashes.
  lemma Halves(k: nat)
    ensures (2 * k + 1) / 2 == k && (2 * k + 1) % 2 == 1
  {}

  lemma {:induction false} ParseLiteralQuote(k: nat, tail: string)
    ensures var (a, rest) := ParseArgument(tail, true);
            ParseArgument(Repeat(2 * k + 1, SLASH) + ([QUOTE] + tail), true) == (Repeat(k, SLASH) + ([QUOTE] + a), rest)
  {
    hide Slashes;
    var n := 2 * k + 1;
    Halves(k);
    var s := Repeat(n, SLASH) + ([QUOTE] + tail);
    SlashesOf(n, [QUOTE] + tail);
    assert s[n] == QUOTE && s[n + 1..] == tail;
  }

  // Backslashes before any other character stand for themselves.
  lemma ParseOther(k: nat, c: char, tail: string, inside: bool)
    requires c != SLASH && c != QUOTE && (inside || !IsBlank(c))
    ensures var (a, rest) := ParseArgument(tail, inside);
            ParseArgument(Repeat(k, SLASH) + ([c] + tail), inside) == (Repeat(k, SLASH) + ([c] + a), rest)
  {
    var s := Repeat(k, SLASH) + ([c] + tail);
    SlashesOf(k, [c] + tail);
    assert ([c] + tail)[1..] == tail && Slashes([c] + tail) == 0;
    if k == 0 {
      RepeatSnoc(0, [c] + tail);
      RepeatSnoc(0, [c] + ParseArgument(tail, inside).0);
    } else {
      assert s[k] == c;
    }
  }

  lemma {:induction false} QuotedReadsBack(s: string, slashes: nat, rest: string)
    requires ArgumentEnd(rest)
    ensures ParseArgument(Quoted(s, slashes) + rest, true) == (Repeat(slashes, SLASH) + s, rest)
    decreases |s|
  {
    hide ParseArgument;
    if s == "" {
      ParseClosing(slashes, rest);
      assert Quoted(s, slashes) + rest == Repeat(2 * slashes, SLASH) + ([QUOTE] + rest);
      assert Repeat(slashes, SLASH) + s == Repeat(slashes, SLASH);
    } else if s[0] == SLASH {
      QuotedReadsBack(s[1..], slashes + 1, rest);
      RepeatSnoc(slashes, s[1..]);
      assert s == [SLASH] + s[1..];
    } else {
      QuotedReadsBack(s[1..], 0, rest);
      RepeatSnoc(0, s[1..]);
      var tail := Quoted(s[1..], 0) + rest;
      assert s == [s[0]] + s[1..];
      if s[0] == QUOTE {
        ParseLiteralQuote(slashes, tail);
        assert Quoted(s, slashes) + rest == Repeat(2 * slashes + 1, SLASH) + ([QUOTE] + tail);
      } else {
        ParseOther(slashes, s[0], tail, true);
        assert Quoted(s, slashes) + rest == Repeat(slashes, SLASH) + ([s[0]] + tail);
      }
    }
  }

  lemma {:induction false} PlainReadsBack(s: string, rest: string)
    requires (forall i :: 0 <= i < |s| ==> !IsBlank(s[i]) && s[i] != QUOTE) && ArgumentEnd(rest)
    ensures ParseArgument(s + rest, false) == (s, rest)
    decreases |s|
  {
    hide ParseArgument;
    var n := Slashes(s);
    if n == |s| {
      SlashesAtEnd(n, rest);
      assert s + rest == Repeat(n, SLASH) + rest && s == Repeat(n, SLASH);
    } else {
      PlainReadsBack(s[n + 1..], rest);
      ParseOther(n, s[n], s[n + 1..] + rest, false);
      assert s == Repeat(n, SLASH) + ([s[n]] + s[n + 1..]);
      assert s + rest == Repeat(n, SLASH) + ([s[n]] + (s[n + 1..] + rest));
    }
  }

  lemma SlashesAtEnd(n: nat, rest: string)
    requires ArgumentEnd(rest)
    ensures ParseArgument(Repeat(n, SLASH) + rest, false) == (Repeat(n, SLASH), rest)
  {
    EndOfArgument(rest);
    SlashesOf(n, rest);
    if n == 0 { RepeatSnoc(0, rest); }
    assert Repeat(n, SLASH) + "" == Repeat(n, SLASH);
  }

  lemma ArgumentReadsBack(argument: string, rest: string)
    requires ArgumentEnd(rest)
    ensures ParseArgument(Quote(argument) + rest, false) == (argument, rest)
    ensures Quote(argument) != "" && !IsBlank(Quote(argument)[0])
  {
    if Plain(argument) {
      PlainReadsBack(argument, rest);
      assert argument[0] in argument;
    } else {
      QuotedReadsBack(argument, 0, rest);
      RepeatSnoc(0, argument);
      OpensQuote(Quoted(argument, 0) + rest);
      assert Quote(argument) + rest == [QUOTE] + (Quoted(argument, 0) + rest);
    }
  }

  lemma OpensQuote(tail: string)
    ensures ParseArgument([QUOTE] + tail, false) == ParseArgument(tail, true)
  {
    assert ([QUOTE] + tail)[1..] == tail;
  }

  // Every list of arguments survives being joined and read back.
  lemma {:induction false} JoinReadsBack(arguments: seq<string>)
    ensures ParseAll(Join(arguments)) == arguments
  {
    hide Quote, ParseArgument;
    if |arguments| == 1 {
      ArgumentReadsBack(arguments[0], "");
      var q := Quote(arguments[0]);
      assert q + "" == q && SkipBlanks(q) == q;
      assert ParseAll("") == [];
    } else if |arguments| > 1 {
      var rest := [' '] + Join(arguments[1..]);
      ArgumentReadsBack(arguments[0], rest);
      JoinReadsBack(arguments[1..]);
      assert SkipBlanks(Quote(arguments[0]) + rest) == Quote(arguments[0]) + rest;
      LeadingBlank(Join(arguments[1..]));
      assert arguments == [arguments[0]] + arguments[1..];
    }
  }

  lemma LeadingBlank(s: string)
    ensures ParseAll([' '] + s) == ParseAll(s)
  {
    assert ([' '] + s)[1..] == s;
  }

  // So different lists give different texts.
  lemma JoinIsInjective(a: seq<string>, b: seq<string>)
    requires Join(a) == Join(b)
    ensures a == b
  {
    JoinReadsBack(a);
    JoinReadsBack(b);
  }

  // ---- the routines ----

  method QuoteWindowsArgument(argument: string) returns (quoted: string)
    ensures quoted == Quote(argument)
  {
    if Plain(argument) { return argument; }
    quoted := [QUOTE];
    var slashes: nat := 0;
    for i := 0 to |argument|
      invariant quoted + Quoted(argument[i..], slashes) == [QUOTE] + Quoted(argument, 0)
    {
      var c, before := argument[i], quoted;
      assert argument[i..][1..] == argument[i + 1..];
      ghost var tail := Quoted(argument[i + 1..], 0);
      if c == SLASH {
        slashes := slashes + 1;
      } else if c == QUOTE {
        quoted := quoted + Repeat(slashes * 2 + 1, SLASH) + [QUOTE];
        Associates(before, Repeat(slashes * 2 + 1, SLASH), [QUOTE], tail);
        slashes := 0;
      } else {
        quoted := quoted + Repeat(slashes, SLASH);
        Associates(before, Repeat(slashes, SLASH), [c], tail);
        slashes := 0;
        quoted := quoted + [c];
      }
    }
    assert argument[|argument|..] == "";
    Associates(quoted, Repeat(slashes * 2, SLASH), [QUOTE], "");
    quoted := quoted + Repeat(slashes * 2, SLASH) + [QUOTE];
    assert quoted + "" == quoted;
  }

  lemma Associates(a: string, b: string, c: string, d: string)
    ensures a + b + c + d == a + (b + (c + d))
    ensures c + "" == c
  {}

  // The scheduler's argument text.
  method Arguments(values: seq<string>) returns (result: string)
    ensures result == Join(values)
  {
    result := "";
    for i := 0 to |values|
      invariant result == Join(values[..i]) && (result == "" <==> i == 0)
    {
      JoinNext(values, i);
      ArgumentReadsBack(values[i], "");
      if result != "" { result := result + [' ']; }
      var quoted := QuoteWindowsArgument(values[i]);
      result := result + quoted;
    }
    assert values[..|values|] == values;
  }

  lemma {:induction false} JoinNext(values: seq<string>, i: nat)
    requires i < |values|
    ensures Join(values[..i + 1]) == if i == 0 then Quote(values[0]) else Join(values[..i]) + [' '] + Quote(values[i])
  {
    hide Quote;
    if i == 0 {
    } else {
      assert values[..i + 1][1..] == values[1..][..i] && values[..i][1..] == values[1..][..i - 1];
      JoinNext(values[1..], i - 1);
      if i > 1 { Associates(Quote(values[0]), [' '], Join(values[1..][..i - 1]), [' '] + Quote(values[i])); }
      BlankBetween(Quote(values[0]), Join(values[1..][..i - 1]), Quote(values[i]));
    }
  }

  lemma BlankBetween(a: string, b: string, c: string)
    ensures a + ([' '] + (b + [' '] + c)) == a + ([' '] + b) + [' '] + c
    ensures a + ([' '] + c) == a + [' '] + c
  {}

  // The process builder's command line: the program, then every argument after a blank.
  method CommandLine(executable: string, arguments: seq<string>) returns (command: Option<string>)
    ensures command == if executable == "" then None else Some(Join([executable] + arguments))
  {
    if executable == "" { return None; }
    var all := [executable] + arguments;
    var line := QuoteWindowsArgument(executable);
    assert all[..1] == [executable];
    for i := 0 to |arguments|
      invariant line == Join(all[..i + 1])
    {
      JoinNext(all, i + 1);
      var quoted := QuoteWindowsArgument(arguments[i]);
      line := line + [' '] + quoted;
    }
    assert all[..|all|] == all;
    command := Some(line);
  }

  // ---- what the program receives ----

  predicate NullFree(s: string) { '\0' !in s }

  lemma {:induction false} NullFreeWhole(s: string)
    requires NullFree(s)
    ensures UpToNull(s) == s
  {
    if s == "" {
    } else {
      assert s[0] in s;
      NullFreeWhole(s[1..]);
    }
  }

  lemma {:induction false} QuotedNullFree(s: string, slashes: nat)
    requires NullFree(s)
    ensures NullFree(Quoted(s, slashes))
    decreases |s|
  {
    if s == "" {
    } else {
      assert s[0] in s;
      QuotedNullFree(s[1..], if s[0] == SLASH then slashes + 1 else 0);
    }
  }

  lemma {:induction false} JoinNullFree(arguments: seq<string>)
    requires forall a :: a in arguments ==> NullFree(a)
    ensures NullFree(Join(arguments))
  {
    hide Quoted;
    if arguments == [] {
    } else {
      assert arguments[0] in arguments;
      QuotedNullFree(arguments[0], 0);
      if |arguments| > 1 { JoinNullFree(arguments[1..]); }
    }
  }

  // Reading over a program name that was quoted: nothing if a blank ends it too early, otherwise whether the closing mark
  // finds it inside quotation marks.
  function Passing(s: string, inside: bool): Option<bool> {
    if s == "" then Some(inside)
    else if !inside && IsBlank(s[0]) then None
    else Passing(s[1..], if s[0] == QUOTE then !inside else inside)
  }

  // Every blank of the name, and its end, come after an even number of quotation marks.
  predicate Balanced(executable: string) { Passing(executable, true) == Some(true) }

  lemma {:induction false} NoMarksBalanced(executable: string)
    requires QUOTE !in executable
    ensures Balanced(executable)
  {
    if executable == "" {
    } else {
      assert executable[0] in executable;
      NoMarksBalanced(executable[1..]);
    }
  }

  // One character of the name with the backslashes written before it.
  lemma StepPassed(n: nat, c: char, tail: string, inside: bool)
    requires c != SLASH && (inside || !IsBlank(c))
    ensures AfterProgram(Repeat(n, SLASH) + ([c] + tail), inside) == AfterProgram(tail, if c == QUOTE then !inside else inside)
  {
    SlashesPassed(n, [c] + tail, inside);
    assert ([c] + tail)[1..] == tail;
  }

  lemma {:induction false} ProgramPassed(s: string, slashes: nat, rest: string, inside: bool)
    requires Passing(s, inside).Some?
    ensures AfterProgram(Quoted(s, slashes) + rest, inside) == AfterProgram(rest, !Passing(s, inside).value)
    decreases |s|
  {
    hide AfterProgram, Repeat;
    if s == "" {
      StepPassed(2 * slashes, QUOTE, rest, inside);
      assert Quoted(s, slashes) + rest == Repeat(2 * slashes, SLASH) + ([QUOTE] + rest);
    } else if s[0] == SLASH {
      ProgramPassed(s[1..], slashes + 1, rest, inside);
    } else {
      var next := if s[0] == QUOTE then !inside else inside;
      var n := if s[0] == QUOTE then 2 * slashes + 1 else slashes;
      ProgramPassed(s[1..], 0, rest, next);
      StepPassed(n, s[0], Quoted(s[1..], 0) + rest, inside);
      assert Quoted(s, slashes) + rest == Repeat(n, SLASH) + ([s[0]] + (Quoted(s[1..], 0) + rest));
    }
  }

  // A name that ends too early leaves a quotation mark behind.
  lemma {:induction false} ProgramEndsEarly(s: string, slashes: nat, inside: bool)
    requires Passing(s, inside).None?
    ensures QUOTE in AfterProgram(Quoted(s, slashes), inside)
    decreases |s|
  {
    hide Repeat;
    if s[0] == SLASH {
      ProgramEndsEarly(s[1..], slashes + 1, inside);
    } else {
      var n := if s[0] == QUOTE then 2 * slashes + 1 else slashes;
      var tail := Quoted(s[1..], 0);
      assert Quoted(s, slashes) == Repeat(n, SLASH) + ([s[0]] + tail);
      if !inside && IsBlank(s[0]) {
        SlashesPassed(n, [s[0]] + tail, inside);
        EndsInMark(s[1..], 0);
      } else {
        ProgramEndsEarly(s[1..], 0, if s[0] == QUOTE then !inside else inside);
        StepPassed(n, s[0], tail, inside);
      }
    }
  }

  lemma {:induction false} EndsInMark(s: string, slashes: nat)
    ensures QUOTE in Quoted(s, slashes)
    decreases |s|
  {
    if s == "" {
    } else {
      EndsInMark(s[1..], if s[0] == SLASH then slashes + 1 else 0);
    }
  }

  lemma {:induction false} SlashesPassed(n: nat, rest: string, inside: bool)
    ensures AfterProgram(Repeat(n, SLASH) + rest, inside) == AfterProgram(rest, inside)
  {
    hide AfterProgram;
    if n == 0 {
      assert Repeat(0, SLASH) + rest == rest;
    } else {
      var tail := Repeat(n - 1, SLASH) + rest;
      SlashesPassed(n - 1, rest, inside);
      SlashPassed(tail, inside);
      assert Repeat(n, SLASH) + rest == [SLASH] + tail;
    }
  }

  lemma SlashPassed(tail: string, inside: bool)
    ensures AfterProgram([SLASH] + tail, inside) == AfterProgram(tail, inside)
  {
    assert ([SLASH] + tail)[1..] == tail;
  }

  lemma {:induction false} PlainPassed(s: string, rest: string)
    requires (forall i :: 0 <= i < |s| ==> !IsBlank(s[i]) && s[i] != QUOTE) && ArgumentEnd(rest)
    ensures AfterProgram(s + rest, false) == rest
  {
    if s == "" {
      assert s + rest == rest;
    } else {
      assert (s + rest)[1..] == s[1..] + rest;
      PlainPassed(s[1..], rest);
    }
  }

  lemma QuotedProgramPassed(executable: string, rest: string)
    requires executable != "" && Balanced(executable) && ArgumentEnd(rest)
    ensures AfterProgram(Quote(executable) + rest, false) == rest
  {
    hide Quoted;
    if Plain(executable) {
      PlainPassed(executable, rest);
    } else {
      ProgramPassed(executable, 0, rest, true);
      OpeningPassed(Quoted(executable, 0), rest);
    }
  }

  lemma OpeningPassed(quoted: string, rest: string)
    ensures AfterProgram([QUOTE] + quoted + rest, false) == AfterProgram(quoted + rest, true)
  {
    assert ([QUOTE] + quoted + rest)[1..] == quoted + rest;
  }

  lemma ProgramThenArguments(executable: string, arguments: seq<string>)
    ensures Join([executable] + arguments) == Quote(executable) + if arguments == [] then "" else [' '] + Join(arguments)
  {
    hide Quote;
    assert ([executable] + arguments)[1..] == arguments;
    assert Quote(executable) + "" == Quote(executable);
  }

  // The program receives exactly the arguments it was to be given, whatever they contain. Quotation marks in the name of
  // the program, which the rules for arguments escape and the rule for the name does not, must be balanced.
  lemma {:induction false} CommandLineReadsBack(executable: string, arguments: seq<string>)
    requires executable != "" && Balanced(executable)
    requires NullFree(executable) && forall a :: a in arguments ==> NullFree(a)
    ensures ParseCommandLine(Join([executable] + arguments)) == arguments
  {
    hide ParseAll, Quote, Join, AfterProgram, UpToNull, NullFree;
    var all := [executable] + arguments;
    JoinNullFree(all);
    NullFreeWhole(Join(all));
    JoinReadsBack(arguments);
    ProgramThenArguments(executable, arguments);
    QuotedProgramPassed(executable, if arguments == [] then "" else [' '] + Join(arguments));
    if arguments == [] {
      assert Join([]) == "" by { JoinOfNothing(); }
    } else {
      LeadingBlank(Join(arguments));
    }
  }

  // It is exactly the programs with such a name that receive every list of arguments.
  lemma EveryListReadsBack(executable: string)
    requires executable != "" && NullFree(executable)
    ensures Balanced(executable) <==>
            forall arguments :: (forall a :: a in arguments ==> NullFree(a)) ==>
              ParseCommandLine(Join([executable] + arguments)) == arguments
  {
    hide Join, ParseCommandLine, Passing, NullFree;
    if Balanced(executable) {
      forall arguments | forall a :: a in arguments ==> NullFree(a)
        ensures ParseCommandLine(Join([executable] + arguments)) == arguments
      {
        CommandLineReadsBack(executable, arguments);
      }
    } else {
      var lost := if Passing(executable, true).None? then [] else ["x"];
      assert NullFree("x") by { XIsNullFree(); }
      UnbalancedLoses(executable);
      assert forall a :: a in lost ==> NullFree(a);
    }
  }

  lemma XIsNullFree()
    ensures NullFree("x")
  {}

  // A name that ends early becomes an argument itself; one that does not end swallows the arguments.
  lemma UnbalancedLoses(executable: string)
    requires executable != "" && NullFree(executable) && !Balanced(executable)
    ensures var lost := if Passing(executable, true).None? then [] else ["x"];
            ParseCommandLine(Join([executable] + lost)) != lost
  {
    hide ParseAll, Quoted, Join, AfterProgram, UpToNull, NullFree;
    var lost := if Passing(executable, true).None? then [] else ["x"];
    var quoted := Quoted(executable, 0);
    if QUOTE !in executable { NoMarksBalanced(executable); }
    assert !Plain(executable);
    assert NullFree("x") by { XIsNullFree(); }
    JoinNullFree([executable] + lost);
    NullFreeWhole(Join([executable] + lost));
    ProgramThenArguments(executable, lost);
    if lost == [] {
      OpeningPassed(quoted, "");
      assert quoted + "" == quoted && [QUOTE] + quoted + "" == [QUOTE] + quoted;
      ProgramEndsEarly(executable, 0, true);
      SomethingThere(AfterProgram(quoted, true));
    } else {
      OpeningPassed(quoted, [' '] + Join(lost));
      ProgramPassed(executable, 0, [' '] + Join(lost), true);
      assert Join(["x"]) == "x" by { JoinOfX(); }
      AllSwallowed();
    }
  }

  lemma {:induction false} SomethingThere(s: string)
    requires QUOTE in s
    ensures ParseAll(s) != []
  {
    StillThere(s);
  }

  lemma {:induction false} StillThere(s: string)
    requires QUOTE in s
    ensures QUOTE in SkipBlanks(s)
  {
    if IsBlank(s[0]) {
      assert s == [s[0]] + s[1..];
      StillThere(s[1..]);
    }
  }

  lemma JoinOfX()
    ensures Join(["x"]) == "x"
  {}

  lemma AllSwallowed()
    ensures AfterProgram([' '] + "x", true) == "" && ParseAll("") == []
  {
    assert ([' '] + "x")[1..] == "x" && "x"[1..] == "";
  }

  lemma JoinOfNothing()
    ensures Join([]) == ""
  {}

  // ---- comparing scheduled tasks ----

  datatype Trigger = OnDemand | CurrentUserLogon | Once
  datatype TaskDefinition = TaskDefinition(
    description: string, executable: string, arguments: seq<string>, trigger: Trigger, startBoundary: string)
  datatype TaskSnapshot = TaskSnapshot(
    registered: bool, enabled: bool, description: string, executable: string, arguments: string, trigger: Trigger, startBoundary: string)

  predicate Equivalent(current: TaskSnapshot, desired: TaskDefinition) {
    && current.registered && current.enabled && current.description == desired.description
    && current.executable == desired.executable && current.arguments == Join(desired.arguments)
    && current.trigger == desired.trigger
    && (desired.trigger == Once ==> current.startBoundary == desired.startBoundary)
  }

  // A task registered for one list of arguments is taken as up to date for another only if the lists are the same.
  lemma EquivalentMeansSameArguments(current: TaskSnapshot, arguments: seq<string>, desired: TaskDefinition)
    requires current.arguments == Join(arguments) && Equivalent(current, desired)
    ensures arguments == desired.arguments
  {
    JoinIsInjective(arguments, desired.arguments);
  }
}
