/**
 Building the target's command line, against the rules by which the target's C runtime takes it apart
 again ("Parsing C command-line arguments" in the Microsoft C documentation).
 */
module CommandLine {

  // ---------------------------------------------------------------- the target's argument parser

  predicate IsBlank(c: char) { c == ' ' || c == '\t' }

  function Repeat(c: char, n: nat): (s: string)
    ensures |s| == n
    ensures forall i :: 0 <= i < n ==> s[i] == c
  {
    if n == 0 then "" else Repeat(c, n - 1) + [c]
  }

  /** One parsed argument and the text after it. */
  datatype Parsed = Parsed(argument: string, rest: string)

  /**
   An argument other than the first. `pending` counts backslashes not yet resolved: before a quote, 2n of
   them give n and leave the quote a delimiter, 2n+1 give n and make the quote literal; elsewhere they
   stand for themselves. Inside quotes a doubled quote is a literal one.
   */
  function ParseArgument(s: string, quoted: bool, pending: nat, done: string): (r: Parsed)
    ensures |r.rest| <= |s|
    decreases |s|
  {
    if s == "" then
      Parsed(done + Repeat('\\', pending), "")
    else if s[0] == '\\' then
      ParseArgument(s[1..], quoted, pending + 1, done)
    else if s[0] == '"' then
      var flushed := done + Repeat('\\', pending / 2);
      if pending % 2 == 1 then ParseArgument(s[1..], quoted, 0, flushed + "\"")
      else if quoted && |s| > 1 && s[1] == '"' then ParseArgument(s[2..], quoted, 0, flushed + "\"")
      else ParseArgument(s[1..], !quoted, 0, flushed)
    else
      var flushed := done + Repeat('\\', pending);
      if !quoted && IsBlank(s[0]) then Parsed(flushed, s)
      else ParseArgument(s[1..], quoted, 0, flushed + [s[0]])
  }

  /** The first argument, the program name: quotes delimit, backslashes mean nothing. */
  function ParseProgram(s: string, quoted: bool, done: string): (r: Parsed)
    ensures |r.rest| <= |s|
    ensures s != "" && (quoted || !IsBlank(s[0])) ==> |r.rest| < |s|
    decreases |s|
  {
    if s == "" then Parsed(done, "")
    else if s[0] == '"' then ParseProgram(s[1..], !quoted, done)
    else if !quoted && IsBlank(s[0]) then Parsed(done, s)
    else ParseProgram(s[1..], quoted, done + [s[0]])
  }

  function SkipBlanks(s: string): (r: string)
    ensures |r| <= |s| && (r != "" ==> !IsBlank(r[0]))
  {
    if s != "" && IsBlank(s[0]) then SkipBlanks(s[1..]) else s
  }

  lemma ParseConsumes(s: string, quoted: bool, pending: nat, done: string)
    requires s != "" && (quoted || !IsBlank(s[0]))
    ensures |ParseArgument(s, quoted, pending, done).rest| < |s|
  {
  }

  function SplitRest(s: string): seq<string>
    decreases |s|
  {
    var t := SkipBlanks(s);
    if t == "" then []
    else
      ParseConsumes(t, false, 0, "");
      var p := ParseArgument(t, false, 0, "");
      [p.argument] + SplitRest(p.rest)
  }

  /** What the target sees of a NUL-terminated buffer. */
  function UpToNul(s: string): (r: string)
    ensures r <= s
  {
    if s == "" || s[0] == '\0' then "" else [s[0]] + UpToNul(s[1..])
  }

  /** The target's argv. */
  function Split(buffer: string): seq<string> {
    var p := ParseProgram(UpToNul(buffer), false, "");
    [p.argument] + SplitRest(p.rest)
  }

  // ---------------------------------------------------------------- the command line

  predicate Special(c: char) { c == ' ' || c == '\t' || c == '\n' || c == '\U{0B}' || c == '"' }

  predicate NeedsQuotes(argument: string) {
    argument == "" || exists i :: 0 <= i < |argument| && Special(argument[i])
  }

  /** The quoted form after the opening quote, with `pending` backslashes held back. */
  function Body(argument: string, pending: nat): string {
    if argument == "" then Repeat('\\', pending * 2) + "\""
    else if argument[0] == '\\' then Body(argument[1..], pending + 1)
    else if argument[0] == '"' then Repeat('\\', pending * 2 + 1) + "\"" + Body(argument[1..], 0)
    else Repeat('\\', pending) + [argument[0]] + Body(argument[1..], 0)
  }

  function Quote(argument: string): (q: string)
    ensures q != ""
  {
    if NeedsQuotes(argument) then "\"" + Body(argument, 0) else argument
  }

  /** The arguments after the first, each behind a space. */
  function Tail(arguments: seq<string>): string {
    if arguments == [] then "" else " " + Quote(arguments[0]) + Tail(arguments[1..])
  }

  function Build(arguments: seq<string>): string {
    if arguments == [] then "" else Quote(arguments[0]) + Tail(arguments[1..])
  }

  lemma {:induction false} TailAppend(arguments: seq<string>, a: string)
    ensures Tail(arguments + [a]) == Tail(arguments) + " " + Quote(a)
  {
    if arguments == [] {
      assert [a][1..] == [];
    } else {
      TailAppend(arguments[1..], a);
      assert (arguments + [a])[1..] == arguments[1..] + [a];
    }
  }

  method FindsSpecial(argument: string) returns (found: bool)
    ensures found <==> exists i :: 0 <= i < |argument| && Special(argument[i])
  {
    for i := 0 to |argument|
      invariant forall k :: 0 <= k < i ==> !Special(argument[k])
    {
      if Special(argument[i]) { return true; }
    }
    return false;
  }

  lemma {:induction false} BodyIsLonger(argument: string, pending: nat)
    ensures |Body(argument, pending)| > |argument| + pending
    decreases |argument|
  {
    if argument != "" {
      BodyIsLonger(argument[1..], if argument[0] == '\\' then pending + 1 else 0);
    }
  }

  /** An argument is left as it is exactly if it is not empty and has none of these five characters. */
  lemma LeftAlone(argument: string)
    ensures Quote(argument) == argument <==>
      argument != "" && forall i :: 0 <= i < |argument| ==> argument[i] !in {' ', '\t', '\n', '\U{0B}', '"'}
  {
    BodyIsLonger(argument, 0);
    assert NeedsQuotes(argument) ==> |Quote(argument)| > |argument|;
    assert NeedsQuotes(argument) <==>
      argument == "" || exists i :: 0 <= i < |argument| && argument[i] in {' ', '\t', '\n', '\U{0B}', '"'};
  }

  method QuoteWindowsArgument(argument: string) returns (quoted: string)
    ensures quoted == Quote(argument)
  {
    var found := FindsSpecial(argument);
    if argument != "" && !found {
      return argument;
    }

    quoted := "\"";
    var backslashes: nat := 0;
    assert argument[0..] == argument;
    for i := 0 to |argument|
      invariant quoted + Body(argument[i..], backslashes) == "\"" + Body(argument, 0)
    {
      var character := argument[i];
      assert argument[i..][1..] == argument[i + 1..];
      if character == '\\' {
        backslashes := backslashes + 1;
      } else if character == '"' {
        quoted := quoted + Repeat('\\', backslashes * 2 + 1);
        quoted := quoted + "\"";
        backslashes := 0;
      } else {
        quoted := quoted + Repeat('\\', backslashes);
        backslashes := 0;
        quoted := quoted + [character];
      }
    }
    assert argument[|argument|..] == "";
    quoted := quoted + Repeat('\\', backslashes * 2);
    quoted := quoted + "\"";
  }

  /** The line comes apart again into the arguments it was built from, exactly when the program name allows it. */
  method BuildWindowsCommandLine(arguments: seq<string>) returns (commandLine: string)
    ensures commandLine == Build(arguments)
    ensures arguments != [] && (forall a :: a in arguments ==> '\0' !in a) ==>
      (Split(commandLine) == arguments <==> ProgramSafe(arguments[0]))
  {
    commandLine := "";
    for i := 0 to |arguments|
      invariant commandLine == Build(arguments[..i])
    {
      if i > 0 {
        assert arguments[..i + 1][1..] == arguments[..i][1..] + [arguments[i]];
        TailAppend(arguments[..i][1..], arguments[i]);
      } else {
        assert arguments[..1][1..] == [];
      }
      if commandLine != "" {
        commandLine := commandLine + " ";
      }
      var quoted := QuoteWindowsArgument(arguments[i]);
      commandLine := commandLine + quoted;
    }
    assert arguments[..|arguments|] == arguments;
    if arguments != [] && (forall a :: a in arguments ==> '\0' !in a) {
      ArgumentsRoundTrip(arguments);
    }
  }

  // ---------------------------------------------------------------- the rules of the parser

  lemma {:induction false} SlashRun(n: nat, x: string, quoted: bool, pending: nat, done: string)
    ensures ParseArgument(Repeat('\\', n) + x, quoted, pending, done) == ParseArgument(x, quoted, pending + n, done)
    decreases n
  {
    if n == 0 {
      assert Repeat('\\', 0) + x == x;
    } else {
      assert (Repeat('\\', n) + x)[1..] == Repeat('\\', n - 1) + x by { RepeatFront('\\', n); }
      SlashRun(n - 1, x, quoted, pending + 1, done);
    }
  }

  lemma RepeatFront(c: char, n: nat)
    requires n > 0
    ensures Repeat(c, n)[0] == c && Repeat(c, n)[1..] == Repeat(c, n - 1)
  {
  }

  lemma RepeatSum(c: char, m: nat, n: nat)
    ensures Repeat(c, m) + Repeat(c, n) == Repeat(c, m + n)
  {
  }

  /** Two backslashes in front of a quote are one; one more makes the quote literal, as does another quote. */
  lemma QuoteRules(n: nat, x: string, quoted: bool, done: string)
    ensures
      ParseArgument(Repeat('\\', 2 * n + 1) + ("\"" + x), quoted, 0, done)
      == ParseArgument(x, quoted, 0, done + Repeat('\\', n) + "\"")
    ensures !quoted || x == "" || x[0] != '"' ==>
      ParseArgument(Repeat('\\', 2 * n) + ("\"" + x), quoted, 0, done)
      == ParseArgument(x, !quoted, 0, done + Repeat('\\', n))
    ensures quoted && x != "" && x[0] == '"' ==>
      ParseArgument(Repeat('\\', 2 * n) + ("\"" + x), quoted, 0, done)
      == ParseArgument(x[1..], quoted, 0, done + Repeat('\\', n) + "\"")
  {
    hide Repeat;
    var q := "\"" + x;
    SlashRun(2 * n + 1, q, quoted, 0, done);
    SlashRun(2 * n, q, quoted, 0, done);
    Halves(n);
    assert q[1..] == x;
    assert x != "" ==> q[2..] == x[1..];
  }

  lemma Halves(n: nat)
    ensures (2 * n + 1) / 2 == n && (2 * n + 1) % 2 == 1 && 2 * n / 2 == n && 2 * n % 2 == 0
  {
  }

  /** In front of other characters backslashes stand for themselves; a blank ends an argument outside quotes. */
  lemma CharacterRules(n: nat, c: char, x: string, quoted: bool, done: string)
    requires c !in {'\\', '"'}
    ensures quoted || c !in {' ', '\t'} ==>
      ParseArgument(Repeat('\\', n) + ([c] + x), quoted, 0, done)
      == ParseArgument(x, quoted, 0, done + Repeat('\\', n) + [c])
    ensures !quoted && c in {' ', '\t'} ==>
      ParseArgument(Repeat('\\', n) + ([c] + x), quoted, 0, done) == Parsed(done + Repeat('\\', n), [c] + x)
  {
    hide Repeat;
    SlashRun(n, [c] + x, quoted, 0, done);
    assert ([c] + x)[1..] == x;
  }

  /** In the program name a backslash is a character like any other. */
  lemma ProgramRules(c: char, x: string, quoted: bool, done: string)
    ensures ParseProgram("\"" + x, quoted, done) == ParseProgram(x, !quoted, done)
    ensures c != '"' && (quoted || c !in {' ', '\t'}) ==>
      ParseProgram([c] + x, quoted, done) == ParseProgram(x, quoted, done + [c])
    ensures c in {' ', '\t'} ==> ParseProgram([c] + x, false, done) == Parsed(done, [c] + x)
  {
    assert ("\"" + x)[1..] == x && ([c] + x)[1..] == x;
  }

  /** Blanks in front of an argument do not matter, nor does anything behind a NUL. */
  lemma BlanksAreSkipped(c: char, x: string)
    ensures c in {' ', '\t'} ==> SplitRest([c] + x) == SplitRest(x)
    ensures '\0' !in x ==> forall y :: UpToNul(x + ("\0" + y)) == x
  {
    assert ([c] + x)[1..] == x;
    if '\0' !in x {
      forall y ensures UpToNul(x + ("\0" + y)) == x { CutAtNul(x, y); }
    }
  }

  lemma {:induction false} CutAtNul(x: string, y: string)
    requires '\0' !in x
    ensures UpToNul(x + ("\0" + y)) == x
  {
    if x != "" {
      CutAtNul(x[1..], y);
      assert (x + ("\0" + y))[1..] == x[1..] + ("\0" + y);
    }
  }

  // ---------------------------------------------------------------- round trip, later arguments

  /** Text after an argument: nothing, or a separating blank. */
  predicate Follows(tail: string) { tail == "" || IsBlank(tail[0]) }

  lemma {:induction false} PlainParses(argument: string, tail: string, pending: nat, done: string)
    requires forall i :: 0 <= i < |argument| ==> !Special(argument[i])
    requires Follows(tail)
    ensures ParseArgument(argument + tail, false, pending, done)
      == Parsed(done + Repeat('\\', pending) + argument, tail)
    decreases |argument|
  {
    if argument == "" {
      assert "" + tail == tail;
      assert done + Repeat('\\', pending) + "" == done + Repeat('\\', pending);
    } else {
      var s, rest := argument + tail, argument[1..];
      assert s[1..] == rest + tail;
      if argument[0] == '\\' {
        PlainParses(rest, tail, pending + 1, done);
        RepeatSum('\\', pending, 1);
        assert Repeat('\\', pending + 1) == Repeat('\\', pending) + ['\\'];
        assert done + Repeat('\\', pending + 1) + rest == done + Repeat('\\', pending) + argument;
      } else {
        var flushed := done + Repeat('\\', pending) + [argument[0]];
        PlainParses(rest, tail, 0, flushed);
        assert flushed + Repeat('\\', 0) + rest == done + Repeat('\\', pending) + argument;
      }
    }
  }

  /** The end of a quoted argument: doubled backslashes, then the closing quote. */
  lemma CloseParses(pending: nat, tail: string, done: string)
    requires Follows(tail)
    ensures ParseArgument(Repeat('\\', pending * 2) + "\"" + tail, true, 0, done)
      == Parsed(done + Repeat('\\', pending), tail)
  {
    var close := "\"" + tail;
    assert Repeat('\\', pending * 2) + "\"" + tail == Repeat('\\', pending * 2) + close;
    SlashRun(pending * 2, close, true, 0, done);
    assert close[1..] == tail;
    var flushed := done + Repeat('\\', pending);
    assert flushed + Repeat('\\', 0) == flushed;
  }

  lemma {:induction false} BodyParses(argument: string, tail: string, pending: nat, done: string)
    requires Follows(tail)
    ensures ParseArgument(Body(argument, pending) + tail, true, 0, done)
      == Parsed(done + Repeat('\\', pending) + argument, tail)
    decreases |argument|
  {
    var slashes := Repeat('\\', pending);
    if argument == "" {
      CloseParses(pending, tail, done);
      assert done + slashes + "" == done + slashes;
    } else {
      var c, rest := argument[0], argument[1..];
      if c == '\\' {
        BodyParses(rest, tail, pending + 1, done);
        assert done + Repeat('\\', pending + 1) + rest == done + slashes + argument;
      } else {
        BodyParses(rest, tail, 0, done + slashes + [c]);
        BodyStep(c, rest, tail, pending, done);
        assert done + slashes + [c] + Repeat('\\', 0) + rest == done + slashes + argument;
      }
    }
  }

  /** How many backslashes are written in front of a character other than a backslash. */
  function Escapes(c: char, pending: nat): nat { if c == '"' then pending * 2 + 1 else pending }

  lemma BodyFlushes(c: char, rest: string, tail: string, pending: nat)
    requires c != '\\'
    ensures Body([c] + rest, pending) + tail == Repeat('\\', Escapes(c, pending)) + ([c] + (Body(rest, 0) + tail))
  {
    assert ([c] + rest)[1..] == rest;
    assert Body([c] + rest, pending) == Repeat('\\', Escapes(c, pending)) + [c] + Body(rest, 0);
  }

  /** Reading those backslashes and the character gives back what was pending and the character. */
  lemma FlushParses(c: char, y: string, pending: nat, done: string)
    requires c != '\\'
    ensures ParseArgument([c] + y, true, Escapes(c, pending), done)
      == ParseArgument(y, true, 0, done + Repeat('\\', pending) + [c])
  {
    assert ([c] + y)[1..] == y;
    assert (pending * 2 + 1) / 2 == pending && (pending * 2 + 1) % 2 == 1;
  }

  lemma BodyStep(c: char, rest: string, tail: string, pending: nat, done: string)
    requires c != '\\'
    ensures ParseArgument(Body([c] + rest, pending) + tail, true, 0, done)
      == ParseArgument(Body(rest, 0) + tail, true, 0, done + Repeat('\\', pending) + [c])
  {
    var y := Body(rest, 0) + tail;
    BodyFlushes(c, rest, tail, pending);
    SlashRun(Escapes(c, pending), [c] + y, true, 0, done);
    FlushParses(c, y, pending, done);
  }

  lemma QuotedParses(argument: string, tail: string)
    requires NeedsQuotes(argument) && Follows(tail)
    ensures ParseArgument(Quote(argument) + tail, false, 0, "") == Parsed(argument, tail)
  {
    var s := Quote(argument) + tail;
    assert s[1..] == Body(argument, 0) + tail;
    assert "" + Repeat('\\', 0) == "";
    BodyParses(argument, tail, 0, "");
    assert "" + Repeat('\\', 0) + argument == argument;
  }

  lemma QuoteParses(argument: string, tail: string)
    requires Follows(tail)
    ensures ParseArgument(Quote(argument) + tail, false, 0, "") == Parsed(argument, tail)
    ensures !IsBlank(Quote(argument)[0])
  {
    if NeedsQuotes(argument) {
      QuotedParses(argument, tail);
    } else {
      PlainParses(argument, tail, 0, "");
      assert "" + Repeat('\\', 0) + argument == argument;
    }
  }

  lemma {:induction false} TailSplits(arguments: seq<string>)
    ensures Follows(Tail(arguments)) && SplitRest(Tail(arguments)) == arguments
  {
    if arguments != [] {
      TailSplits(arguments[1..]);
      TailStep(arguments[0], arguments[1..]);
      assert [arguments[0]] + arguments[1..] == arguments;
    }
  }

  lemma BlankThenArgument(t: string)
    requires t != "" && !IsBlank(t[0])
    ensures SkipBlanks(" " + t) == t
  {
    assert (" " + t)[1..] == t;
  }

  lemma TailUnfolds(first: string, others: seq<string>)
    ensures Tail([first] + others) == " " + (Quote(first) + Tail(others))
  {
    assert ([first] + others)[1..] == others;
  }

  /** One more argument in front of a command line that already splits. */
  lemma TailStep(first: string, others: seq<string>)
    requires Follows(Tail(others)) && SplitRest(Tail(others)) == others
    ensures Follows(Tail([first] + others)) && SplitRest(Tail([first] + others)) == [first] + others
  {
    var t := Quote(first) + Tail(others);
    QuoteParses(first, Tail(others));
    TailUnfolds(first, others);
    BlankThenArgument(t);
    ParseConsumes(t, false, 0, "");
  }

  // ---------------------------------------------------------------- round trip, the program name

  /** A program name the first-argument rule can carry: no quote, and no trailing backslash if it gets quoted. */
  predicate ProgramSafe(program: string) {
    && '"' !in program
    && (NeedsQuotes(program) && program != "" ==> program[|program| - 1] != '\\')
  }

  lemma {:induction false} ProgramHasNoQuote(s: string, quoted: bool, done: string)
    requires '"' !in done
    ensures '"' !in ParseProgram(s, quoted, done).argument
    decreases |s|
  {
    if s != "" && s[0] == '"' {
      ProgramHasNoQuote(s[1..], !quoted, done);
    } else if s != "" && (quoted || !IsBlank(s[0])) {
      ProgramHasNoQuote(s[1..], quoted, done + [s[0]]);
    }
  }

  lemma {:induction false} LiteralRun(x: string, y: string, quoted: bool, done: string)
    requires forall i :: 0 <= i < |x| ==> x[i] != '"' && (quoted || !IsBlank(x[i]))
    ensures ParseProgram(x + y, quoted, done) == ParseProgram(y, quoted, done + x)
    decreases |x|
  {
    if x == "" {
      assert x + y == y && done + x == done;
    } else {
      assert (x + y)[1..] == x[1..] + y;
      LiteralRun(x[1..], y, quoted, done + [x[0]]);
      assert done + [x[0]] + x[1..] == done + x;
    }
  }

  /** Without a quote in it, the body only doubles the backslashes at its end. */
  lemma {:induction false} QuotelessBody(argument: string, pending: nat) returns (extra: nat)
    requires '"' !in argument
    ensures Body(argument, pending) == Repeat('\\', pending) + argument + Closing(extra)
    ensures extra == 0 <==> (if argument == "" then pending == 0 else argument[|argument| - 1] != '\\')
    decreases |argument|
  {
    if argument == "" {
      extra := pending;
      RepeatSum('\\', pending, pending);
      assert Repeat('\\', pending) + "" == Repeat('\\', pending);
    } else {
      var rest := argument[1..];
      assert argument == [argument[0]] + rest;
      if argument[0] == '\\' {
        extra := QuotelessBody(rest, pending + 1);
        assert Repeat('\\', pending + 1) + rest == Repeat('\\', pending) + argument;
      } else {
        extra := QuotelessBody(rest, 0);
        assert Repeat('\\', 0) + rest == rest;
        assert Repeat('\\', pending) + [argument[0]] + (rest + Closing(extra))
          == Repeat('\\', pending) + argument + Closing(extra);
      }
    }
  }

  function Closing(extra: nat): string { Repeat('\\', extra) + "\"" }

  lemma QuotedProgramParses(literal: string, tail: string)
    requires '"' !in literal && Follows(tail)
    ensures ParseProgram("\"" + literal + "\"" + tail, false, "") == Parsed(literal, tail)
  {
    var close := "\"" + tail;
    var s := "\"" + literal + "\"" + tail;
    assert s[1..] == literal + close;
    LiteralRun(literal, close, true, "");
    assert "" + literal == literal;
    assert close[1..] == tail;
  }

  lemma ProgramParses(program: string, tail: string)
    requires Follows(tail)
    ensures ParseProgram(Quote(program) + tail, false, "").argument == program <==> ProgramSafe(program)
    ensures ProgramSafe(program) ==> ParseProgram(Quote(program) + tail, false, "").rest == tail
  {
    if '"' in program {
      ProgramHasNoQuote(Quote(program) + tail, false, "");
    } else if !NeedsQuotes(program) {
      LiteralRun(program, tail, false, "");
      assert "" + program == program;
    } else {
      QuotelessProgramParses(program, tail);
    }
  }

  lemma QuotelessProgramParses(program: string, tail: string)
    requires Follows(tail) && '"' !in program && NeedsQuotes(program)
    ensures ParseProgram(Quote(program) + tail, false, "").argument == program <==> ProgramSafe(program)
    ensures ParseProgram(Quote(program) + tail, false, "").rest == tail
  {
    var extra := QuotelessBody(program, 0);
    var literal := program + Repeat('\\', extra);
    assert Repeat('\\', 0) + program == program;
    assert Quote(program) + tail == "\"" + literal + "\"" + tail;
    QuotedProgramParses(literal, tail);
    if extra == 0 {
      assert literal == program;
    }
  }

  // ---------------------------------------------------------------- round trip, whole command lines

  lemma {:induction false} BodyHasNoNul(argument: string, pending: nat)
    requires '\0' !in argument
    ensures '\0' !in Body(argument, pending)
    decreases |argument|
  {
    if argument != "" {
      BodyHasNoNul(argument[1..], if argument[0] == '\\' then pending + 1 else 0);
    }
  }

  lemma {:induction false} TailHasNoNul(arguments: seq<string>)
    requires forall a :: a in arguments ==> '\0' !in a
    ensures '\0' !in Tail(arguments)
  {
    if arguments != [] {
      BodyHasNoNul(arguments[0], 0);
      TailHasNoNul(arguments[1..]);
    }
  }

  lemma {:induction false} NothingCut(s: string)
    requires '\0' !in s
    ensures UpToNul(s) == s
  {
    if s != "" { NothingCut(s[1..]); }
  }

  /** The argument vector survives exactly when its program name can. */
  lemma ArgumentsRoundTrip(arguments: seq<string>)
    requires arguments != [] && forall a :: a in arguments ==> '\0' !in a
    ensures Split(Build(arguments)) == arguments <==> ProgramSafe(arguments[0])
  {
    var program, others := arguments[0], arguments[1..];
    BodyHasNoNul(program, 0);
    TailHasNoNul(others);
    NothingCut(Build(arguments));
    TailSplits(others);
    ProgramParses(program, Tail(others));
    assert [program] + others == arguments;
  }
}
