/** Building a Windows command line so that the documented argument rules parse it back. */
module ArgumentQuoting {
  import opened Text

  // ------------------------------------------------------------ quoting

  function Backslashes(n: nat): (s: string)
    ensures |s| == n && forall i :: 0 <= i < n ==> s[i] == '\\'
  {
    seq(n, _ => '\\')
  }

  /** The characters for which an argument is quoted: space, tab, newline, vertical tab, quote. */
  predicate IsSpecial(c: char) {
    c == ' ' || c == '\t' || c == '\n' || c == 0xB as char || c == '"'
  }

  predicate NeedsQuotes(arg: string) {
    arg == "" || exists i :: 0 <= i < |arg| && IsSpecial(arg[i])
  }

  /** The inside of a quoted argument, after `slashes` backslashes not yet written. */
  function Escaped(arg: string, slashes: nat): string {
    if arg == "" then Backslashes(slashes * 2)
    else if arg[0] == '\\' then Escaped(arg[1..], slashes + 1)
    else if arg[0] == '"' then Backslashes(slashes * 2 + 1) + "\"" + Escaped(arg[1..], 0)
    else Backslashes(slashes) + [arg[0]] + Escaped(arg[1..], 0)
  }

  function Quoted(arg: string): string {
    if NeedsQuotes(arg) then "\"" + Escaped(arg, 0) + "\"" else arg
  }

  /** An argument is left as it is exactly when it is not empty and has none of these five characters. */
  lemma LeftAsItIs(arg: string)
    ensures Quoted(arg) == arg <==>
            arg != "" && forall i :: 0 <= i < |arg| ==> arg[i] !in [' ', '\t', '\n', 11 as char, '"']
  {
    if NeedsQuotes(arg) && arg != "" {
      assert Quoted(arg)[0] == '"';
      if Quoted(arg) == arg {
        assert |Quoted(arg)| == |arg|;
        EscapedIsNoShorter(arg, 0);
      }
    }
  }

  lemma {:induction false} EscapedIsNoShorter(arg: string, slashes: nat)
    ensures |Escaped(arg, slashes)| >= |arg| + slashes
    decreases |arg|
  {
    if arg != "" {
      EscapedIsNoShorter(arg[1..], if arg[0] == '\\' then slashes + 1 else 0);
    }
  }

  method AppendQuoted(sink: string, arg: string) returns (out: string)
    ensures out == sink + Quoted(arg)
  {
    if !NeedsQuotes(arg) {
      return sink + arg;
    }
    out := sink + "\"";
    var i := 0;
    assert arg[0..] == arg;
    while true
      invariant 0 <= i <= |arg|
      invariant sink + "\"" + Escaped(arg, 0) == out + Escaped(arg[i..], 0)
      decreases |arg| - i
    {
      var backslashes := 0;
      ghost var start := i;
      while i < |arg| && arg[i] == '\\'
        invariant start <= i <= |arg| && backslashes == i - start
        invariant Escaped(arg[start..], 0) == Escaped(arg[i..], backslashes)
      {
        assert arg[i..][1..] == arg[i + 1..];
        i := i + 1;
        backslashes := backslashes + 1;
      }
      ghost var before := out;
      if i == |arg| {
        out := out + Backslashes(backslashes * 2);
        break;
      }
      assert arg[i..][1..] == arg[i + 1..];
      if arg[i] == '"' {
        out := out + Backslashes(backslashes * 2 + 1) + "\"";
        Associate(before, Backslashes(backslashes * 2 + 1), "\"", Escaped(arg[i + 1..], 0));
      } else {
        out := out + Backslashes(backslashes) + [arg[i]];
        Associate(before, Backslashes(backslashes), [arg[i]], Escaped(arg[i + 1..], 0));
      }
      i := i + 1;
    }
    assert out == sink + "\"" + Escaped(arg, 0);
    out := out + "\"";
    assert out == sink + Quoted(arg);
  }

  lemma Associate(a: string, b: string, c: string, d: string)
    ensures a + (b + c + d) == a + b + c + d
  {
  }

  /** The part of the command line after the command: a space and a quoted argument each. */
  function ArgumentText(args: seq<string>): string {
    if args == [] then "" else " " + Quoted(args[0]) + ArgumentText(args[1..])
  }

  method CommandLine(command: string, args: seq<string>) returns (line: string)
    ensures line == Quoted(command) + ArgumentText(args)
  {
    hide Quoted;
    line := AppendQuoted("", command);
    assert args[0..] == args;
    for i := 0 to |args|
      invariant Quoted(command) + ArgumentText(args) == line + ArgumentText(args[i..])
    {
      assert args[i..][1..] == args[i + 1..];
      ghost var before := line;
      line := line + " ";
      line := AppendQuoted(line, args[i]);
      Associate(before, " ", Quoted(args[i]), ArgumentText(args[i + 1..]));
    }
  }

  // ------------------------------------------------------------ the documented parsing rules

  /** What has been read of the current argument, and the backslashes just before the next character. */
  datatype Reading = Between | Within(text: string, quoted: bool, slashes: nat)

  function Flush(r: Reading): seq<string> {
    match r
    case Between => []
    case Within(text, _, slashes) => [text + Backslashes(slashes)]
  }

  predicate InQuotes(r: Reading) {
    r.Within? && r.quoted
  }

  function ReadText(r: Reading): string {
    if r.Within? then r.text else ""
  }

  function ReadSlashes(r: Reading): nat {
    if r.Within? then r.slashes else 0
  }

  /** Arguments are separated by blanks outside quotes. A run of 2n backslashes before a quote
      stands for n, and the quote opens or closes; a run of 2n+1 stands for n and a literal quote;
      other backslashes are literal. With `doubling`, two quotes inside quotes stand for one. */
  function ParseArguments(s: string, r: Reading, doubling: bool): seq<string>
    decreases |s|
  {
    if s == "" then Flush(r)
    else if s[0] == '\\' then ParseArguments(s[1..], Within(ReadText(r), InQuotes(r), ReadSlashes(r) + 1), doubling)
    else if s[0] == '"' then
      var text := ReadText(r) + Backslashes(ReadSlashes(r) / 2);
      if ReadSlashes(r) % 2 == 1 then ParseArguments(s[1..], Within(text + "\"", InQuotes(r), 0), doubling)
      else if doubling && InQuotes(r) && |s| > 1 && s[1] == '"' then
        ParseArguments(s[2..], Within(text + "\"", true, 0), doubling)
      else ParseArguments(s[1..], Within(text, !InQuotes(r), 0), doubling)
    else if IsBlank(s[0]) && !InQuotes(r) then Flush(r) + ParseArguments(s[1..], Between, doubling)
    else
      var text := ReadText(r) + Backslashes(ReadSlashes(r)) + [s[0]];
      ParseArguments(s[1..], Within(text, InQuotes(r), 0), doubling)
  }

  // ------------------------------------------------------------ the round trip

  lemma {:induction false} BackslashesCounted(n: nat, rest: string, r: Reading, doubling: bool)
    requires n > 0
    ensures ParseArguments(Backslashes(n) + rest, r, doubling) ==
            ParseArguments(rest, Within(ReadText(r), InQuotes(r), ReadSlashes(r) + n), doubling)
  {
    var s := Backslashes(n) + rest;
    if n == 1 {
      assert s[1..] == rest;
    } else {
      assert s[1..] == Backslashes(n - 1) + rest;
      BackslashesCounted(n - 1, rest, Within(ReadText(r), InQuotes(r), ReadSlashes(r) + 1), doubling);
    }
  }

  /** An escaped text between quotes is read back as it was. */
  lemma {:induction false} EscapedParses(arg: string, slashes: nat, text: string, rest: string, doubling: bool)
    requires rest == "" || IsBlank(rest[0])
    ensures ParseArguments(Escaped(arg, slashes) + "\"" + rest, Within(text, true, 0), doubling) ==
            ParseArguments(rest, Within(text + Backslashes(slashes) + arg, false, 0), doubling)
    decreases |arg|
  {
    hide ParseArguments;
    var s := Escaped(arg, slashes) + "\"" + rest;
    if arg == "" {
      RunThenQuote(slashes, 0, text, rest, doubling);
      assert s == Backslashes(slashes * 2) + ("\"" + rest);
      assert text + Backslashes(slashes) + arg == text + Backslashes(slashes);
    } else if arg[0] == '\\' {
      EscapedParses(arg[1..], slashes + 1, text, rest, doubling);
      assert text + Backslashes(slashes + 1) + arg[1..] == text + Backslashes(slashes) + arg;
    } else {
      var tail := Escaped(arg[1..], 0) + "\"" + rest;
      if arg[0] == '"' {
        assert s == Backslashes(slashes * 2 + 1) + ("\"" + tail);
        RunThenQuote(slashes, 1, text, tail, doubling);
      } else {
        assert s == Backslashes(slashes) + ([arg[0]] + tail);
        RunThenOther(slashes, arg[0], text, tail, doubling);
      }
      var text' := text + Backslashes(slashes) + [arg[0]];
      EscapedParses(arg[1..], 0, text', rest, doubling);
      assert text' + Backslashes(0) + arg[1..] == text + Backslashes(slashes) + arg;
    }
  }

  /** A run of backslashes and a quote, inside quotes: closing when even, literal when odd. */
  lemma RunThenQuote(n: nat, odd: nat, text: string, tail: string, doubling: bool)
    requires odd <= 1 && (odd == 0 ==> tail == "" || tail[0] != '"')
    ensures ParseArguments(Backslashes(n * 2 + odd) + ("\"" + tail), Within(text, true, 0), doubling) ==
            if odd == 1 then ParseArguments(tail, Within(text + Backslashes(n) + "\"", true, 0), doubling)
            else ParseArguments(tail, Within(text + Backslashes(n), false, 0), doubling)
  {
    var quote := "\"" + tail;
    assert quote[1..] == tail;
    var m := n * 2 + odd;
    if m > 0 {
      BackslashesCounted(m, quote, Within(text, true, 0), doubling);
    } else {
      assert Backslashes(0) + quote == quote;
    }
    assert m / 2 == n && m % 2 == odd;
  }

  lemma RunThenOther(n: nat, c: char, text: string, tail: string, doubling: bool)
    requires c != '\\' && c != '"'
    ensures ParseArguments(Backslashes(n) + ([c] + tail), Within(text, true, 0), doubling) ==
            ParseArguments(tail, Within(text + Backslashes(n) + [c], true, 0), doubling)
  {
    var rest := [c] + tail;
    assert rest[1..] == tail;
    if n > 0 {
      BackslashesCounted(n, rest, Within(text, true, 0), doubling);
    } else {
      assert Backslashes(0) + rest == rest;
    }
  }

  /** One step over a character that neither ends an argument nor opens quotes. */
  lemma {:induction false} PlainStep(s: string, r: Reading, doubling: bool)
    requires s != "" && !IsSpecial(s[0]) && !InQuotes(r)
    ensures ParseArguments(s, r, doubling) ==
            ParseArguments(s[1..],
                           if s[0] == '\\' then Within(ReadText(r), false, ReadSlashes(r) + 1)
                           else Within(ReadText(r) + Backslashes(ReadSlashes(r)) + [s[0]], false, 0), doubling)
  {
  }

  /** An argument without special characters is read back as it was. */
  lemma {:induction false} PlainParses(arg: string, rest: string, r: Reading, doubling: bool)
    requires forall i :: 0 <= i < |arg| ==> !IsSpecial(arg[i])
    requires rest == "" || IsBlank(rest[0])
    requires !InQuotes(r) && (arg == "" ==> r.Within?)
    ensures ParseArguments(arg + rest, r, doubling) ==
            [ReadText(r) + Backslashes(ReadSlashes(r)) + arg] + ParseArguments(rest, Between, doubling)
    decreases |arg|
  {
    hide ParseArguments;
    var s := arg + rest;
    var read := ReadText(r) + Backslashes(ReadSlashes(r));
    if arg == "" {
      assert s == rest && read + arg == read;
      ArgumentEnds(rest, r, doubling);
    } else {
      assert s[0] == arg[0] && s[1..] == arg[1..] + rest;
      assert !IsSpecial(arg[0]);
      var next := if arg[0] == '\\' then Within(ReadText(r), false, ReadSlashes(r) + 1)
                  else Within(read + [arg[0]], false, 0);
      PlainStep(s, r, doubling);
      PlainParses(arg[1..], rest, next, doubling);
      assert ReadText(next) + Backslashes(ReadSlashes(next)) + arg[1..] == read + arg;
    }
  }

  /** At a blank or at the end, an argument outside quotes is complete. */
  lemma ArgumentEnds(rest: string, r: Reading, doubling: bool)
    requires rest == "" || IsBlank(rest[0])
    requires r.Within? && !r.quoted
    ensures ParseArguments(rest, r, doubling) ==
            [r.text + Backslashes(r.slashes)] + ParseArguments(rest, Between, doubling)
  {
    if rest != "" {
      assert [] + ParseArguments(rest[1..], Between, doubling) == ParseArguments(rest[1..], Between, doubling);
    }
  }

  lemma {:induction false} OpeningQuote(inside: string, doubling: bool)
    ensures ParseArguments("\"" + inside, Between, doubling) == ParseArguments(inside, Within("", true, 0), doubling)
  {
    assert ("\"" + inside)[1..] == inside && "" + Backslashes(0) == "";
  }

  lemma {:induction false} QuotedParses(arg: string, rest: string, doubling: bool)
    requires rest == "" || IsBlank(rest[0])
    ensures ParseArguments(Quoted(arg) + rest, Between, doubling) == [arg] + ParseArguments(rest, Between, doubling)
  {
    hide ParseArguments;
    hide Escaped;
    if NeedsQuotes(arg) {
      var inside := Escaped(arg, 0) + "\"" + rest;
      OpeningQuote(inside, doubling);
      assert Quoted(arg) + rest == "\"" + inside;
      EscapedParses(arg, 0, "", rest, doubling);
      assert "" + Backslashes(0) + arg == arg;
      ArgumentEnds(rest, Within(arg, false, 0), doubling);
      assert arg + Backslashes(0) == arg;
    } else {
      PlainParses(arg, rest, Between, doubling);
      assert "" + Backslashes(0) + arg == arg;
    }
  }

  lemma {:induction false} ArgumentTextParses(args: seq<string>, doubling: bool)
    ensures ParseArguments(ArgumentText(args), Between, doubling) == args
    decreases |args|
  {
    if args != [] {
      var rest := ArgumentText(args[1..]);
      var s := ArgumentText(args);
      assert s[1..] == Quoted(args[0]) + rest;
      assert [] + ParseArguments(s[1..], Between, doubling) == ParseArguments(s[1..], Between, doubling);
      QuotedParses(args[0], rest, doubling);
      ArgumentTextParses(args[1..], doubling);
    }
  }

  // ------------------------------------------------------------ the command line is a C string

  function CString(s: string): string {
    if s == "" || s[0] == '\0' then "" else [s[0]] + CString(s[1..])
  }

  predicate NulFree(s: string) {
    '\0' !in s
  }

  lemma {:induction false} CStringNulFree(s: string)
    ensures NulFree(CString(s)) && (NulFree(s) ==> CString(s) == s)
  {
    if s != "" && s[0] != '\0' {
      CStringNulFree(s[1..]);
    }
  }

  lemma {:induction false} QuotingKeepsNulFree(arg: string, slashes: nat)
    requires NulFree(arg)
    ensures NulFree(Escaped(arg, slashes))
    decreases |arg|
  {
    if arg != "" {
      QuotingKeepsNulFree(arg[1..], if arg[0] == '\\' then slashes + 1 else 0);
    }
  }

  lemma {:induction false} ArgumentTextNulFree(args: seq<string>)
    requires forall a :: a in args ==> NulFree(a)
    ensures NulFree(ArgumentText(args))
    decreases |args|
  {
    if args != [] {
      QuotingKeepsNulFree(args[0], 0);
      ArgumentTextNulFree(args[1..]);
    }
  }

  lemma {:induction false} ParsedNulFree(s: string, r: Reading, doubling: bool)
    requires NulFree(s) && NulFree(ReadText(r))
    ensures forall a :: a in ParseArguments(s, r, doubling) ==> NulFree(a)
    decreases |s|
  {
    if s == "" {
    } else if s[0] == '\\' {
      ParsedNulFree(s[1..], Within(ReadText(r), InQuotes(r), ReadSlashes(r) + 1), doubling);
    } else if s[0] == '"' {
      var text := ReadText(r) + Backslashes(ReadSlashes(r) / 2);
      ParsedNulFree(s[1..], Within(text + "\"", InQuotes(r), 0), doubling);
      ParsedNulFree(s[1..], Within(text, !InQuotes(r), 0), doubling);
      if |s| > 1 {
        ParsedNulFree(s[2..], Within(text + "\"", true, 0), doubling);
      }
    } else if IsBlank(s[0]) && !InQuotes(r) {
      ParsedNulFree(s[1..], Between, doubling);
    } else {
      ParsedNulFree(s[1..], Within(ReadText(r) + Backslashes(ReadSlashes(r)) + [s[0]], InQuotes(r), 0), doubling);
    }
  }

  /** Every argument is read back verbatim exactly when none contains a NUL, whether or not the
      reader treats doubled quotes specially. */
  lemma ArgumentsRoundTrip(args: seq<string>, doubling: bool)
    ensures ParseArguments(CString(ArgumentText(args)), Between, doubling) == args <==>
            forall a :: a in args ==> NulFree(a)
  {
    var s := ArgumentText(args);
    CStringNulFree(s);
    if forall a :: a in args ==> NulFree(a) {
      ArgumentTextNulFree(args);
      ArgumentTextParses(args, doubling);
    } else {
      ParsedNulFree(CString(s), Between, doubling);
    }
  }
}
