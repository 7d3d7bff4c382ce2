/** Request and response heads: the incremental parser and the two writers (RFC 9112, sections 3 to 5). */
module HttpHeads {
  import opened Wrappers
  import opened Text

  type Headers = map<string, string>
  type HeaderList = seq<(string, string)>

  /** `status` is 0 for a request. */
  datatype Head = Head(verb: string, target: string, status: int, reason: string, headers: Headers)

  datatype Outcome = Incomplete | Malformed | Parsed(head: Head, consumed: nat)

  const BLANK_LINE: string := "\r\n\r\n"
  const BARE_BLANK_LINE: string := "\n\n"

  // ------------------------------------------------------------ small text operations

  function Lower(c: char): char {
    if 'A' <= c <= 'Z' then (c as int + 32) as char else c
  }

  function ToLower(s: string): (r: string)
    ensures |r| == |s|
  {
    seq(|s|, i requires 0 <= i < |s| => Lower(s[i]))
  }

  function TrimStart(s: string): string {
    if s != "" && IsBlank(s[0]) then TrimStart(s[1..]) else s
  }

  function TrimEnd(s: string): string {
    if s != "" && (IsBlank(s[|s| - 1]) || s[|s| - 1] == '\r') then TrimEnd(s[..|s| - 1]) else s
  }

  function Trim(s: string): string {
    TrimEnd(TrimStart(s))
  }

  /** Capital letters become the small ones, and nothing else changes. */
  lemma LowerLetters(c: char, d: nat)
    ensures d < 26 ==> Lower("ABCDEFGHIJKLMNOPQRSTUVWXYZ"[d]) == "abcdefghijklmnopqrstuvwxyz"[d]
    ensures c !in "ABCDEFGHIJKLMNOPQRSTUVWXYZ" ==> Lower(c) == c
  {
    var capitals := "ABCDEFGHIJKLMNOPQRSTUVWXYZ";
    if 'A' <= c <= 'Z' {
      assert capitals[c as int - 'A' as int] == c;
    }
  }

  /** Blanks in front, and blanks and carriage returns behind, are removed, and nothing between them. */
  lemma {:induction false} TrimRemoves(before: string, core: string, after: string)
    requires forall i :: 0 <= i < |before| ==> before[i] in [' ', '\t']
    requires forall i :: 0 <= i < |after| ==> after[i] in [' ', '\t', '\r']
    requires core != "" ==> core[0] !in [' ', '\t'] && core[|core| - 1] !in [' ', '\t', '\r']
    ensures Trim(before + core + after) == core
    decreases |before| + |after|
  {
    var s := before + core + after;
    if core == "" {
      assert s == before + after;
      EndsBlank(TrimStart(s));
      StartKeepsBlanks(s);
    } else if before != "" {
      assert s[1..] == before[1..] + core + after;
      TrimRemoves(before[1..], core, after);
    } else {
      assert s == core + after && TrimStart(s) == s;
      EndTrimmed(core, after);
    }
  }

  lemma {:induction false} EndTrimmed(core: string, after: string)
    requires forall i :: 0 <= i < |after| ==> after[i] in [' ', '\t', '\r']
    requires core != "" && core[|core| - 1] !in [' ', '\t', '\r']
    ensures TrimEnd(core + after) == core
    decreases |after|
  {
    if after == "" {
      assert core + after == core;
    } else {
      assert (core + after)[..|core + after| - 1] == core + after[..|after| - 1];
      EndTrimmed(core, after[..|after| - 1]);
    }
  }

  predicate AllBlank(s: string) {
    forall i :: 0 <= i < |s| ==> s[i] in [' ', '\t', '\r']
  }

  lemma {:induction false} StartKeepsBlanks(s: string)
    ensures AllBlank(s) ==> AllBlank(TrimStart(s))
    decreases |s|
  {
    if s != "" {
      StartKeepsBlanks(s[1..]);
    }
  }

  lemma {:induction false} EndsBlank(s: string)
    ensures AllBlank(s) ==> TrimEnd(s) == ""
    decreases |s|
  {
    if s != "" {
      EndsBlank(s[..|s| - 1]);
    }
  }

  predicate IsSpaceChar(c: char) {
    c == ' ' || 9 as char <= c <= 13 as char
  }

  /** `std::atoi`: leading white space, a sign, digits. */
  function Atoi(s: string): int {
    if s != "" && IsSpaceChar(s[0]) then Atoi(s[1..])
    else if s != "" && s[0] == '-' then 0 - LeadingDigits(s[1..], 0)
    else if s != "" && s[0] == '+' then LeadingDigits(s[1..], 0)
    else LeadingDigits(s, 0)
  }

  function LeadingDigits(s: string, acc: nat): nat {
    if s == "" || s[0] < '0' || s[0] > '9' then acc else LeadingDigits(s[1..], acc * 10 + DigitValue(s[0]))
  }

  // ------------------------------------------------------------ parsing

  /** Where the head ends: after the first blank line, CRLF if there is one, else bare LF. */
  function HeadEnd(buffer: string): (end: Option<nat>)
    ensures end.Some? ==> 2 <= end.value <= |buffer|
  {
    match Find(buffer, BLANK_LINE, 0)
    case Some(i) => Some(i + 4)
    case None => match Find(buffer, BARE_BLANK_LINE, 0) case Some(i) => Some(i + 2) case None => None
  }

  /** The complete lines of a text, without their line endings. */
  function Lines(text: string): seq<string>
    decreases |text|
  {
    match Find(text, "\n", 0)
    case None => []
    case Some(nl) => [Chomp(text[..nl])] + Lines(text[nl + 1..])
  }

  function RequestLine(line: string): Option<Head> {
    match Find(line, " ", 0)
    case None => None
    case Some(sp1) =>
      match Find(line, " ", sp1 + 1)
      case None => None
      case Some(sp2) =>
        if MatchAt(line, "HTTP/1.", sp2 + 1) then Some(Head(line[..sp1], line[sp1 + 1..sp2], 0, "", map[])) else None
  }

  function StatusLine(line: string): Option<Head> {
    if !MatchAt(line, "HTTP/1.", 0) then None
    else
      match Find(line, " ", 0)
      case None => None
      case Some(sp1) =>
        if sp1 + 4 > |line| then None
        else
          var status := Atoi(line[sp1 + 1..]);
          if status < 100 || status > 599 then None
          else
            var sp2 := Find(line, " ", sp1 + 1);
            Some(Head("", "", status, if sp2.None? then "" else line[sp2.value + 1..], map[]))
  }

  /** Header lines up to the first empty one. */
  function HeaderLines(lines: seq<string>, headers: Headers): Option<Headers> {
    if lines == [] || lines[0] == "" then Some(headers)
    else
      match Find(lines[0], ":", 0)
      case None => None
      case Some(colon) => HeaderLines(lines[1..], headers[ToLower(Trim(lines[0][..colon])) := Trim(lines[0][colon + 1..])])
  }

  function ParsedLines(lines: seq<string>, requestMode: bool, consumed: nat): Outcome {
    if lines == [] || lines[0] == "" then Malformed
    else
      match if requestMode then RequestLine(lines[0]) else StatusLine(lines[0])
      case None => Malformed
      case Some(head) =>
        match HeaderLines(lines[1..], map[])
        case None => Malformed
        case Some(headers) => Parsed(head.(headers := headers), consumed)
  }

  function ParsedHead(buffer: string, requestMode: bool): Outcome {
    match HeadEnd(buffer)
    case None => Incomplete
    case Some(end) => ParsedLines(Lines(buffer[..end]), requestMode, end)
  }

  method SplitLines(text: string) returns (lines: seq<string>)
    ensures lines == Lines(text)
  {
    hide Lines;
    lines := [];
    var pos := 0;
    assert text[0..] == text;
    assert [] + Lines(text) == Lines(text);
    while pos < |text|
      invariant 0 <= pos <= |text|
      invariant Lines(text) == lines + Lines(text[pos..])
    {
      var rest := text[pos..];
      LinesUnfold(rest);
      var nl := Find(rest, "\n", 0);
      if nl.None? {
        assert lines + [] == lines;
        return;
      }
      var line := rest[..nl.value];
      if line != "" && line[|line| - 1] == '\r' {
        line := line[..|line| - 1];
      }
      ghost var before := lines;
      lines := lines + [line];
      pos := pos + nl.value + 1;
      assert rest[nl.value + 1..] == text[pos..];
      assert before + ([line] + Lines(text[pos..])) == lines + Lines(text[pos..]);
    }
    assert text[pos..] == "";
    LinesUnfold("");
    assert lines + [] == lines;
  }

  lemma {:induction false} LinesUnfold(text: string)
    ensures var nl := Find(text, "\n", 0);
            Lines(text) == if nl.None? then [] else [Chomp(text[..nl.value])] + Lines(text[nl.value + 1..])
  {
  }

  method ParseHeaders(lines: seq<string>) returns (result: Option<Headers>)
    ensures result == HeaderLines(lines, map[])
  {
    hide Trim;
    hide ToLower;
    var headers: Headers := map[];
    assert lines[0..] == lines;
    for i := 0 to |lines|
      invariant HeaderLines(lines, map[]) == HeaderLines(lines[i..], headers)
    {
      var line := lines[i];
      assert lines[i..][1..] == lines[i + 1..];
      if line == "" {
        return Some(headers);
      }
      var colon := Find(line, ":", 0);
      if colon.None? {
        return None;
      }
      headers := headers[ToLower(Trim(line[..colon.value])) := Trim(line[colon.value + 1..])];
    }
    result := Some(headers);
  }

  method ParseHead(buffer: string, requestMode: bool) returns (outcome: Outcome)
    ensures outcome == ParsedHead(buffer, requestMode)
  {
    var end := HeadEnd(buffer);
    if end.None? {
      return Incomplete;
    }
    var lines := SplitLines(buffer[..end.value]);
    if lines == [] || lines[0] == "" {
      return Malformed;
    }
    var head := if requestMode then RequestLine(lines[0]) else StatusLine(lines[0]);
    if head.None? {
      return Malformed;
    }
    var headers := ParseHeaders(lines[1..]);
    if headers.None? {
      return Malformed;
    }
    outcome := Parsed(head.value.(headers := headers.value), end.value);
  }

  // ------------------------------------------------------------ writing

  function HeaderLine(h: (string, string)): string {
    h.0 + ": " + h.1
  }

  function HeaderText(headers: HeaderList): string {
    if headers == [] then "" else HeaderLine(headers[0]) + CRLF + HeaderText(headers[1..])
  }

  predicate HasLength(headers: HeaderList) {
    exists i :: 0 <= i < |headers| && ToLower(headers[i].0) == "content-length"
  }

  function LengthHeader(body: string): (string, string) {
    ("Content-Length", ToDecimal(|body|))
  }

  /** The headers a request is sent with. */
  function RequestHeaders(verb: string, headers: HeaderList, body: string): HeaderList {
    if !HasLength(headers) && (body != "" || verb == "POST") then headers + [LengthHeader(body)] else headers
  }

  function ResponseHeaders(headers: HeaderList, body: string, streaming: bool): HeaderList {
    if streaming then headers else headers + [LengthHeader(body)]
  }

  function HeadText(start: string, headers: HeaderList): string {
    start + CRLF + HeaderText(headers) + CRLF
  }

  function RequestStart(verb: string, target: string): string {
    verb + " " + target + " HTTP/1.1"
  }

  function ResponseStart(status: nat, reason: string): string {
    "HTTP/1.1 " + ToDecimal(status) + " " + reason
  }

  lemma {:induction false} HeaderTextSnoc(headers: HeaderList, h: (string, string))
    ensures HeaderText(headers + [h]) == HeaderText(headers) + (HeaderLine(h) + CRLF)
    decreases |headers|
  {
    if headers == [] {
      assert [h][1..] == [];
      assert HeaderText([h]) == HeaderLine(h) + CRLF + "";
    } else {
      assert (headers + [h])[1..] == headers[1..] + [h];
      HeaderTextSnoc(headers[1..], h);
    }
  }

  method WriteHeaders(sink: string, headers: HeaderList) returns (out: string)
    ensures out == sink + HeaderText(headers)
  {
    hide HeaderText;
    out := sink;
    assert sink + HeaderText([]) == sink by {
      HeaderTextEmpty();
    }
    for i := 0 to |headers|
      invariant out == sink + HeaderText(headers[..i])
    {
      HeaderTextSnoc(headers[..i], headers[i]);
      assert headers[..i + 1] == headers[..i] + [headers[i]];
      out := out + headers[i].0 + ": " + headers[i].1 + "\r\n";
    }
    assert headers[..|headers|] == headers;
  }

  lemma HeaderTextEmpty()
    ensures HeaderText([]) == ""
  {
  }

  method SerializeRequest(verb: string, target: string, headers: HeaderList, body: string) returns (out: string)
    ensures out == HeadText(RequestStart(verb, target), RequestHeaders(verb, headers, body)) + body
  {
    hide HeaderText;
    hide ToDecimal;
    var start := RequestStart(verb, target) + CRLF;
    out := WriteHeaders(start, headers);
    if !HasLength(headers) && (body != "" || verb == "POST") {
      HeaderTextSnoc(headers, LengthHeader(body));
      out := out + HeaderLine(LengthHeader(body)) + CRLF;
      assert out == start + HeaderText(headers + [LengthHeader(body)]);
    }
    out := out + CRLF;
    out := out + body;
  }

  method SerializeResponse(status: nat, reason: string, headers: HeaderList, body: string, streaming: bool)
    returns (out: string)
    ensures out == HeadText(ResponseStart(status, reason), ResponseHeaders(headers, body, streaming)) + body
  {
    hide HeaderText;
    hide ToDecimal;
    var start := ResponseStart(status, reason) + CRLF;
    out := WriteHeaders(start, headers);
    if !streaming {
      HeaderTextSnoc(headers, LengthHeader(body));
      out := out + HeaderLine(LengthHeader(body)) + CRLF;
      assert out == start + HeaderText(headers + [LengthHeader(body)]);
    }
    out := out + CRLF;
    out := out + body;
  }

  /** What goes over the wire: HTTP/1.1 start lines, a line for each header, a blank line. */
  lemma {:induction false} HeadOnTheWire(start: string, headers: HeaderList, h: (string, string))
    ensures HeadText(start, []) == start + "\r\n\r\n"
    ensures HeadText(start, headers + [h]) == start + "\r\n" + HeaderText(headers) + h.0 + ": " + h.1 + "\r\n\r\n"
  {
    HeaderTextEmpty();
    HeaderTextSnoc(headers, h);
    hide HeaderText;
    var line := HeaderText(headers) + (h.0 + ": " + h.1 + "\r\n");
    assert HeaderText(headers + [h]) == line;
    assert start + "\r\n" + line + "\r\n" == start + "\r\n" + HeaderText(headers) + h.0 + ": " + h.1 + "\r\n\r\n";
    assert start + "\r\n" + "" + "\r\n" == start + "\r\n\r\n";
  }

  lemma {:induction false} StartLinesOnTheWire(verb: string, target: string, reason: string)
    ensures var line := RequestStart(verb, target); |line| >= 9 && line[|line| - 9..] == " HTTP/1.1"
    ensures ResponseStart(200, reason) == "HTTP/1.1 200 " + reason
  {
    assert ToDecimal(2) == "2" && ToDecimal(20) == "20" && ToDecimal(200) == "200";
  }

  // ------------------------------------------------------------ which start lines are read

  /** A run of white space: space, tab, line feed, vertical tab, form feed, carriage return. */
  predicate AllSpace(s: string) {
    forall i :: 0 <= i < |s| ==> s[i] in [' ', 9 as char, 10 as char, 11 as char, 12 as char, 13 as char]
  }

  lemma {:induction false} AtoiUnfold(s: string)
    ensures Atoi(s) ==
            if s != "" && s[0] in [' ', 9 as char, 10 as char, 11 as char, 12 as char, 13 as char] then Atoi(s[1..])
            else if s != "" && s[0] == '-' then 0 - LeadingDigits(s[1..], 0)
            else if s != "" && s[0] == '+' then LeadingDigits(s[1..], 0) else LeadingDigits(s, 0)
  {
  }

  lemma FirstOfFour(spaces: string, sign: string, digits: string, rest: string)
    ensures spaces != "" ==> var s := spaces + sign + digits + rest;
              s != "" && s[0] == spaces[0] && s[1..] == spaces[1..] + sign + digits + rest
    ensures "" + sign + digits + rest == sign + (digits + rest)
  {
  }

  /** What `std::atoi` reads: white space, an optional sign, and the digits up to the first other character. */
  lemma {:induction false} AtoiReads(spaces: string, sign: string, digits: string, rest: string)
    requires AllSpace(spaces) && sign in ["", "+", "-"] && AllDigits(digits)
    requires rest != "" ==> rest[0] < '0' || rest[0] > '9'
    requires sign == "" && digits == "" ==> rest == "" || rest[0] !in [' ', '+', '-', 9 as char, 10 as char, 11 as char, 12 as char, 13 as char]
    ensures Atoi(spaces + sign + digits + rest) == if sign == "-" then 0 - DecimalValue(digits, 0) else DecimalValue(digits, 0)
    decreases |spaces|
  {
    hide Atoi;
    hide LeadingDigits;
    hide DecimalValue;
    FirstOfFour(spaces, sign, digits, rest);
    AtoiUnfold(spaces + sign + digits + rest);
    if spaces != "" {
      assert spaces[0] in [' ', 9 as char, 10 as char, 11 as char, 12 as char, 13 as char];
      AtoiReads(spaces[1..], sign, digits, rest);
    } else {
      AnyDigitsRead(digits, rest, 0);
      assert spaces + sign + digits + rest == sign + (digits + rest);
      if sign == "" {
        assert sign + (digits + rest) == digits + rest;
        assert digits != "" ==> (digits + rest)[0] == digits[0];
        assert digits == "" ==> digits + rest == rest;
      } else {
        assert (sign + (digits + rest))[0] == sign[0] && (sign + (digits + rest))[1..] == digits + rest;
      }
    }
  }

  lemma {:induction false} AnyDigitsRead(digits: string, rest: string, acc: nat)
    requires AllDigits(digits) && (rest != "" ==> rest[0] < '0' || rest[0] > '9')
    ensures LeadingDigits(digits + rest, acc) == DecimalValue(digits, acc)
    decreases |digits|
  {
    if digits != "" {
      assert (digits + rest)[1..] == digits[1..] + rest;
      AnyDigitsRead(digits[1..], rest, acc * 10 + DigitValue(digits[0]));
    } else {
      assert digits + rest == rest;
    }
  }

  lemma {:induction false} FirstSpace(before: string, after: string)
    requires ' ' !in before
    ensures Find(before + " " + after, " ", 0) == Some(|before|)
    ensures Find(before, " ", 0) == None
  {
    var line := before + " " + after;
    forall j | 0 <= j < |before|
      ensures !MatchAt(line, " ", j) && !MatchAt(before, " ", j)
    {
      assert line[j..j + 1][0] == before[j] && before[j..j + 1][0] == before[j] && before[j] in before;
    }
    assert line[|before|..|before| + 1] == " ";
    FindIs(line, " ", 0, |before|);
  }

  lemma {:induction false} NextSpace(before: string, middle: string, after: string)
    requires ' ' !in middle
    ensures Find(before + " " + middle + " " + after, " ", |before| + 1) == Some(|before| + 1 + |middle|)
    ensures Find(before + " " + middle, " ", |before| + 1) == None
  {
    var line, short := before + " " + middle + " " + after, before + " " + middle;
    forall j | |before| + 1 <= j < |before| + 1 + |middle|
      ensures !MatchAt(line, " ", j) && !MatchAt(short, " ", j)
    {
      assert line[j..j + 1][0] == middle[j - |before| - 1] && short[j..j + 1][0] == middle[j - |before| - 1];
      assert middle[j - |before| - 1] in middle;
    }
    var end := |before| + 1 + |middle|;
    assert line[end..end + 1] == " ";
    FindIs(line, " ", |before| + 1, end);
  }

  /** A status line of any HTTP/1 version is read exactly when three bytes follow its first space and
      the number there is from 100 to 599; the reason is what follows the next space. */
  lemma {:induction false} StatusLineRead(version: string, code: string, reason: string)
    requires ' ' !in version && ' ' !in code
    ensures var (line, status) := ("HTTP/1." + version + " " + code + " " + reason, Atoi(code + " " + reason));
            StatusLine(line) == if |code + reason| >= 2 && 100 <= status <= 599 then Some(Head("", "", status, reason, map[])) else None
    ensures var (line, status) := ("HTTP/1." + version + " " + code, Atoi(code));
            StatusLine(line) == if |code| >= 3 && 100 <= status <= 599 then Some(Head("", "", status, "", map[])) else None
  {
    hide Find;
    hide Atoi;
    var before, rest := "HTTP/1." + version, code + " " + reason;
    assert ' ' !in before;
    var line, short := before + " " + code + " " + reason, before + " " + code;
    assert line == before + " " + rest;
    FirstSpace(before, rest);
    FirstSpace(before, code);
    NextSpace(before, code, reason);
    assert line[0..7] == "HTTP/1." && short[0..7] == "HTTP/1.";
    assert line[|before| + 1..] == rest && short[|before| + 1..] == code;
    assert line[|before| + 1 + |code| + 1..] == reason;
  }

  /** A request line is read exactly when HTTP/1 follows its second space. */
  lemma {:induction false} RequestLineRead(verb: string, target: string, version: string)
    requires ' ' !in verb && ' ' !in target
    ensures RequestLine(verb + " " + target + " " + version) ==
            if "HTTP/1." <= version then Some(Head(verb, target, 0, "", map[])) else None
    ensures RequestLine(verb + " " + target) == None && RequestLine(verb) == None
  {
    hide Find;
    var line := verb + " " + target + " " + version;
    assert line == verb + " " + (target + " " + version);
    FirstSpace(verb, target + " " + version);
    FirstSpace(verb, target);
    NextSpace(verb, target, version);
    var sp2 := |verb| + 1 + |target|;
    assert line[..|verb|] == verb && line[|verb| + 1..sp2] == target && line[sp2 + 1..] == version;
    assert |version| >= 7 ==> line[sp2 + 1..sp2 + 8] == version[..7];
  }

  /** A head is incomplete exactly as long as there is no blank line, of either kind; a complete one is
      read, or malformed. */
  lemma {:induction false} IncompleteIff(buffer: string, requestMode: bool)
    ensures ParsedHead(buffer, requestMode) == Incomplete <==>
            forall i :: 0 <= i ==> !MatchAt(buffer, "\r\n\r\n", i) && !MatchAt(buffer, "\n\n", i)
  {
    hide Lines;
    hide HeaderLines;
    hide RequestLine;
    hide StatusLine;
  }

  /** Headers are refused exactly when a line before the first empty one has no colon. */
  lemma {:induction false} HeadersRefusedIff(lines: seq<string>, m: Headers, end: nat)
    requires end <= |lines| && (end < |lines| ==> lines[end] == "") && forall i :: 0 <= i < end ==> lines[i] != ""
    ensures HeaderLines(lines, m) == None <==> exists i :: 0 <= i < end && !Contains(lines[i], ":")
    decreases |lines|
  {
    hide ToLower;
    hide Trim;
    if end > 0 {
      assert forall i :: 0 <= i < end - 1 ==> lines[1..][i] == lines[i + 1];
      var colon := Find(lines[0], ":", 0);
      if colon.Some? {
        HeadersRefusedIff(lines[1..], m[ToLower(Trim(lines[0][..colon.value])) := Trim(lines[0][colon.value + 1..])], end - 1);
        if exists i :: 0 <= i < end && !Contains(lines[i], ":") {
          var i :| 0 <= i < end && !Contains(lines[i], ":");
          assert !Contains(lines[1..][i - 1], ":");
        }
      }
    }
  }

  // ------------------------------------------------------------ appended bytes

  lemma ConsumedIsHeadEnd(buffer: string, requestMode: bool)
    ensures ParsedHead(buffer, requestMode).Parsed? ==> HeadEnd(buffer) == Some(ParsedHead(buffer, requestMode).consumed)
  {
  }

  /** For a complete head, bytes that arrive later change nothing exactly when the head ends in a
      CRLF blank line or no CRLF blank line turns up later: a head with bare line feeds is cut
      differently once its body contains one. */
  lemma {:induction false} AppendedBytes(buffer: string, more: string, requestMode: bool)
    requires ParsedHead(buffer, requestMode).Parsed?
    ensures ParsedHead(buffer + more, requestMode) == ParsedHead(buffer, requestMode) <==>
            Contains(buffer, BLANK_LINE) || !Contains(buffer + more, BLANK_LINE)
  {
    hide ParsedLines;
    hide Lines;
    hide Find;
    var end := HeadEnd(buffer).value;
    assert (buffer + more)[..end] == buffer[..end];
    ConsumedIsHeadEnd(buffer, requestMode);
    ConsumedIsHeadEnd(buffer + more, requestMode);
    if Contains(buffer, BLANK_LINE) {
      FindAppend(buffer, more, BLANK_LINE, 0);
    } else {
      FindAppend(buffer, more, BARE_BLANK_LINE, 0);
      if Contains(buffer + more, BLANK_LINE) {
        var i := Find(buffer + more, BLANK_LINE, 0).value;
        assert i + 4 <= |buffer| ==> (buffer + more)[i..i + 4] == buffer[i..i + 4];
        assert !MatchAt(buffer, BLANK_LINE, i);
        assert i + 4 > |buffer| >= end;
      }
    }
  }

  // ------------------------------------------------------------ reading back what was written

  predicate OneLine(s: string) {
    '\r' !in s && '\n' !in s
  }

  predicate IsHeader(h: (string, string)) {
    OneLine(h.0) && ':' !in h.0 && OneLine(h.1)
  }

  predicate AreHeaders(headers: HeaderList) {
    forall i :: 0 <= i < |headers| ==> IsHeader(headers[i])
  }

  /** Names lower-cased and trimmed, values trimmed; of equal names the last value wins. */
  function HeaderMap(headers: HeaderList, m: Headers): Headers {
    if headers == [] then m else HeaderMap(headers[1..], m[ToLower(Trim(headers[0].0)) := Trim(headers[0].1)])
  }

  predicate AreLines(lines: seq<string>) {
    forall i :: 0 <= i < |lines| ==> lines[i] != "" && OneLine(lines[i])
  }

  function Joined(lines: seq<string>): string {
    if lines == [] then CRLF else lines[0] + CRLF + Joined(lines[1..])
  }

  function AsLines(headers: HeaderList): (lines: seq<string>)
    ensures |lines| == |headers| && forall i :: 0 <= i < |lines| ==> lines[i] == HeaderLine(headers[i])
  {
    seq(|headers|, i requires 0 <= i < |headers| => HeaderLine(headers[i]))
  }

  lemma {:induction false} HeaderTextJoined(headers: HeaderList)
    ensures HeaderText(headers) + CRLF == Joined(AsLines(headers))
    decreases |headers|
  {
    if headers != [] {
      assert AsLines(headers)[1..] == AsLines(headers[1..]);
      HeaderTextJoined(headers[1..]);
      assert HeaderLine(headers[0]) + CRLF + HeaderText(headers[1..]) + CRLF ==
             HeaderLine(headers[0]) + CRLF + (HeaderText(headers[1..]) + CRLF);
    } else {
      assert "" + CRLF == CRLF;
    }
  }

  /** In joined lines a line feed follows a carriage return, and a carriage return begins a CRLF. */
  lemma {:induction false} JoinedBreaks(lines: seq<string>, j: nat)
    requires AreLines(lines) && j < |Joined(lines)|
    ensures Joined(lines)[j] == '\n' ==> j > 0 && Joined(lines)[j - 1] == '\r'
    ensures Joined(lines)[j] == '\r' ==> j + 1 < |Joined(lines)| && Joined(lines)[j + 1] == '\n'
    ensures |Joined(lines)| >= 2
    decreases |lines|
  {
    if lines != [] {
      var l, rest := lines[0], Joined(lines[1..]);
      assert Joined(lines) == l + CRLF + rest;
      if j < |l| {
        assert Joined(lines)[j] == l[j] && l[j] in l;
      } else if j >= |l| + 2 {
        JoinedBreaks(lines[1..], j - |l| - 2);
        assert Joined(lines)[j] == rest[j - |l| - 2];
      }
    }
  }

  lemma JoinedFirst(lines: seq<string>)
    requires AreLines(lines) && lines != []
    ensures Joined(lines) != "" && Joined(lines)[0] != '\r'
  {
    assert Joined(lines) == lines[0] + CRLF + Joined(lines[1..]);
    assert Joined(lines)[0] == lines[0][0] && lines[0][0] in lines[0];
  }

  lemma {:induction false} BlankLineOnlyAtEnd(lines: seq<string>, rest: string, j: nat)
    requires AreLines(lines) && lines != [] && j + 4 < |Joined(lines)|
    ensures !MatchAt(Joined(lines) + rest, BLANK_LINE, j)
    decreases |lines|
  {
    var l, tail := lines[0], Joined(lines[1..]);
    var text := Joined(lines) + rest;
    assert text == l + CRLF + (tail + rest);
    if j < |l| {
      assert text[j] == l[j] && l[j] in l;
      assert text[j] != '\r';
      assert text[j..j + 4][0] == text[j];
    } else if j == |l| {
      assert lines[1..] != [];
      JoinedFirst(lines[1..]);
      assert text[j + 2] == tail[0];
      assert text[j..j + 4][2] == text[j + 2];
    } else if j == |l| + 1 {
      assert text[j] == '\n';
      assert text[j..j + 4][0] == text[j];
    } else {
      assert lines[1..] != [];
      var k := j - |l| - 2;
      BlankLineOnlyAtEnd(lines[1..], rest, k);
      assert text[j..j + 4] == (tail + rest)[k..k + 4];
    }
  }

  lemma {:induction false} JoinedEndsBlank(lines: seq<string>)
    requires lines != [] && AreLines(lines)
    ensures |Joined(lines)| >= 4 && Joined(lines)[|Joined(lines)| - 4..] == BLANK_LINE
    decreases |lines|
  {
    if |lines| == 1 {
      assert lines[1..] == [];
      assert Joined(lines) == lines[0] + CRLF + CRLF;
    } else {
      JoinedEndsBlank(lines[1..]);
      assert Joined(lines) == lines[0] + CRLF + Joined(lines[1..]);
    }
  }

  lemma HeadEndOfJoined(lines: seq<string>, rest: string)
    requires lines != [] && AreLines(lines)
    ensures HeadEnd(Joined(lines) + rest) == Some(|Joined(lines)|)
  {
    hide Joined;
    JoinedEndsBlank(lines);
    var text := Joined(lines) + rest;
    var i := |Joined(lines)| - 4;
    assert text[i..i + 4] == Joined(lines)[i..];
    forall j | 0 <= j < i
      ensures !MatchAt(text, BLANK_LINE, j)
    {
      BlankLineOnlyAtEnd(lines, rest, j);
    }
    FindIs(text, BLANK_LINE, 0, i);
  }

  /** A shorter prefix of a head has no blank line of either kind. */
  lemma PrefixIncomplete(lines: seq<string>, n: nat)
    requires lines != [] && AreLines(lines) && n < |Joined(lines)|
    ensures HeadEnd(Joined(lines)[..n]) == None
  {
    hide Joined;
    var text := Joined(lines);
    var prefix := text[..n];
    forall j: nat
      ensures !MatchAt(prefix, BLANK_LINE, j)
    {
      if MatchAt(prefix, BLANK_LINE, j) {
        assert prefix[j..j + 4] == (text + "")[j..j + 4];
        BlankLineOnlyAtEnd(lines, "", j);
      }
    }
    forall j: nat
      ensures !MatchAt(prefix, BARE_BLANK_LINE, j)
    {
      if j + 2 <= n && prefix[j..j + 2] == BARE_BLANK_LINE {
        assert prefix[j..j + 2][0] == text[j] && prefix[j..j + 2][1] == text[j + 1];
        JoinedBreaks(lines, j + 1);
      }
    }
  }

  lemma {:induction false} LinesOfJoined(lines: seq<string>)
    requires AreLines(lines)
    ensures Lines(Joined(lines)) == lines + [""]
    decreases |lines|
  {
    hide Joined;
    hide Lines;
    if lines == [] {
      JoinedEmpty();
      FirstLine("", "");
      LinesUnfold("" + CRLF + "");
      LinesUnfold("");
      assert "" + CRLF + "" == CRLF;
      assert [""] + [] == [] + [""];
    } else {
      var l, rest := lines[0], Joined(lines[1..]);
      assert [l] + lines[1..] == lines;
      JoinedCons(l, lines[1..]);
      FirstLine(l, rest);
      LinesUnfold(l + CRLF + rest);
      LinesOfJoined(lines[1..]);
      assert [l] + (lines[1..] + [""]) == lines + [""];
    }
  }

  lemma JoinedEmpty()
    ensures Joined([]) == CRLF
  {
  }

  lemma FirstLine(l: string, rest: string)
    requires OneLine(l)
    ensures var text := l + CRLF + rest;
            Find(text, "\n", 0) == Some(|l| + 1) && Chomp(text[..|l| + 1]) == l && text[|l| + 2..] == rest
  {
    var text := l + CRLF + rest;
    forall j | 0 <= j < |l| + 1
      ensures !MatchAt(text, "\n", j)
    {
      assert text[j..j + 1][0] == text[j];
      if j < |l| {
        assert text[j] == l[j] && l[j] in l;
      }
    }
    assert text[|l| + 1..|l| + 2] == "\n";
    FindIs(text, "\n", 0, |l| + 1);
    assert text[..|l| + 1] == l + "\r";
  }

  lemma ColonOfHeader(h: (string, string))
    requires IsHeader(h)
    ensures var line := HeaderLine(h);
            line != "" && OneLine(line) && Find(line, ":", 0) == Some(|h.0|)
            && line[..|h.0|] == h.0 && Trim(line[|h.0| + 1..]) == Trim(h.1)
  {
    var line := HeaderLine(h);
    forall j | 0 <= j < |h.0|
      ensures !MatchAt(line, ":", j)
    {
      assert line[j..j + 1][0] == h.0[j] && h.0[j] in h.0;
    }
    assert line[|h.0|..|h.0| + 1] == ":";
    FindIs(line, ":", 0, |h.0|);
    assert line[|h.0| + 1..] == " " + h.1;
    assert (" " + h.1)[1..] == h.1;
  }

  lemma {:induction false} HeaderLinesRead(headers: HeaderList, m: Headers)
    requires AreHeaders(headers)
    ensures HeaderLines(AsLines(headers) + [""], m) == Some(HeaderMap(headers, m))
    decreases |headers|
  {
    hide Trim;
    hide ToLower;
    if headers != [] {
      ColonOfHeader(headers[0]);
      assert (AsLines(headers) + [""])[1..] == AsLines(headers[1..]) + [""];
      HeaderLinesRead(headers[1..], m[ToLower(Trim(headers[0].0)) := Trim(headers[0].1)]);
    }
  }

  /** A written head is read back whole, whatever follows it, and no shorter prefix is complete. */
  lemma {:induction false} HeadReadBack(start: string, headers: HeaderList, rest: string, requestMode: bool)
    requires start != "" && OneLine(start) && AreHeaders(headers)
    ensures var text := HeadText(start, headers);
            && (ParsedHead(text + rest, requestMode) ==
                match if requestMode then RequestLine(start) else StatusLine(start)
                case None => Malformed
                case Some(head) => Parsed(head.(headers := HeaderMap(headers, map[])), |text|))
            && forall n :: 0 <= n < |text| ==> ParsedHead((text + rest)[..n], requestMode) == Incomplete
  {
    hide HeaderText;
    hide Joined;
    hide HeaderLines;
    hide RequestLine;
    hide StatusLine;
    hide Lines;
    var lines := [start] + AsLines(headers);
    var text := HeadText(start, headers);
    HeaderTextJoined(headers);
    JoinedCons(start, AsLines(headers));
    assert text == Joined(lines);
    forall i | 0 <= i < |headers|
      ensures HeaderLine(headers[i]) != "" && OneLine(HeaderLine(headers[i]))
    {
      ColonOfHeader(headers[i]);
    }
    HeadEndOfJoined(lines, rest);
    assert (text + rest)[..|text|] == text;
    LinesOfJoined(lines);
    HeaderLinesRead(headers, map[]);
    assert (lines + [""])[1..] == AsLines(headers) + [""];
    forall n | 0 <= n < |text|
      ensures ParsedHead((text + rest)[..n], requestMode) == Incomplete
    {
      PrefixIncomplete(lines, n);
      assert (text + rest)[..n] == text[..n];
    }
  }

  lemma {:induction false} JoinedCons(l: string, lines: seq<string>)
    ensures Joined([l] + lines) == l + CRLF + Joined(lines)
  {
    assert ([l] + lines)[1..] == lines;
  }

  predicate IsToken(s: string) {
    OneLine(s) && ' ' !in s
  }

  lemma RequestStartRead(verb: string, target: string)
    requires IsToken(verb) && IsToken(target)
    ensures RequestLine(RequestStart(verb, target)) == Some(Head(verb, target, 0, "", map[]))
  {
    hide Find;
    var line := RequestStart(verb, target);
    var sp1, sp2 := |verb|, |verb| + 1 + |target|;
    forall j | 0 <= j < sp2 && j != sp1
      ensures !MatchAt(line, " ", j)
    {
      assert line[j..j + 1][0] == line[j];
      if j < sp1 {
        assert line[j] == verb[j] && verb[j] in verb;
      } else {
        assert line[j] == target[j - sp1 - 1] && target[j - sp1 - 1] in target;
      }
    }
    assert line[sp1..sp1 + 1] == " " && line[sp2..sp2 + 1] == " ";
    FindIs(line, " ", 0, sp1);
    FindIs(line, " ", sp1 + 1, sp2);
    assert line[sp2 + 1..sp2 + 8] == "HTTP/1.";
    assert line[..sp1] == verb && line[sp1 + 1..sp2] == target;
  }

  /** Parsing a written request gives back its method, target and headers, leaves exactly the body,
      ignores what comes after, and waits for the whole head. */
  lemma {:induction false} RequestRoundTrip(verb: string, target: string, headers: HeaderList, body: string, more: string)
    requires IsToken(verb) && IsToken(target) && AreHeaders(headers)
    ensures var sent := RequestHeaders(verb, headers, body);
            var head := HeadText(RequestStart(verb, target), sent);
            && ParsedHead(head + body + more, true) == Parsed(Head(verb, target, 0, "", HeaderMap(sent, map[])), |head|)
            && (head + body)[|head|..] == body
            && forall n :: 0 <= n < |head| ==> ParsedHead((head + body)[..n], true) == Incomplete
  {
    hide RequestLine;
    hide ToDecimal;
    hide ParsedHead;
    hide HeadText;
    var sent := RequestHeaders(verb, headers, body);
    DecimalIsHeader(body);
    assert AreHeaders(sent);
    RequestStartRead(verb, target);
    var start := RequestStart(verb, target);
    assert OneLine(start);
    HeadReadBack(start, sent, body + more, true);
    HeadReadBack(start, sent, body, true);
    assert HeadText(start, sent) + body + more == HeadText(start, sent) + (body + more);
  }

  lemma DecimalIsHeader(body: string)
    ensures IsHeader(LengthHeader(body))
  {
    hide ToDecimal;
    var digits := ToDecimal(|body|);
    assert forall i :: 0 <= i < |digits| ==> '0' <= digits[i] <= '9';
  }

  lemma {:induction false} DigitsRead(digits: string, rest: string, acc: nat)
    requires AllDigits(digits) && (rest == "" || rest[0] == ' ')
    ensures LeadingDigits(digits + rest, acc) == DecimalValue(digits, acc)
    decreases |digits|
  {
    if digits != "" {
      assert (digits + rest)[1..] == digits[1..] + rest;
      DigitsRead(digits[1..], rest, acc * 10 + DigitValue(digits[0]));
    } else {
      assert digits + rest == rest;
    }
  }

  lemma ResponseStartRead(status: nat, reason: string)
    requires 100 <= status <= 599
    ensures StatusLine(ResponseStart(status, reason)) == Some(Head("", "", status, reason, map[]))
  {
    hide ToDecimal;
    hide Find;
    var digits := ToDecimal(status);
    var line := ResponseStart(status, reason);
    var sp2 := 9 + |digits|;
    assert line[0..7] == "HTTP/1.";
    assert line == "HTTP/1.1 " + (digits + (" " + reason));
    forall j | 0 <= j < 8
      ensures !MatchAt(line, " ", j)
    {
      assert line[j..j + 1][0] == "HTTP/1.1"[j];
    }
    assert line[8..9] == " ";
    FindIs(line, " ", 0, 8);
    forall j | 9 <= j < sp2
      ensures !MatchAt(line, " ", j)
    {
      assert '0' <= digits[j - 9] <= '9';
      assert line[j..j + 1][0] == line[j] == digits[j - 9];
    }
    assert line[sp2..sp2 + 1] == " ";
    FindIs(line, " ", 9, sp2);
    assert line[9..] == digits + (" " + reason);
    DigitsRead(digits, " " + reason, 0);
    DecimalRoundTrip(status);
    assert Atoi(line[9..]) == status;
    assert line[sp2 + 1..] == reason;
    StatusHasThreeDigits(status);
  }

  lemma StatusHasThreeDigits(status: nat)
    requires 100 <= status <= 599
    ensures |ToDecimal(status)| == 3
  {
    assert |ToDecimal(status / 10)| == 2 by {
      assert |ToDecimal(status / 10 / 10)| == 1;
    }
  }

  /** The same for a written response. */
  lemma {:induction false} ResponseRoundTrip(status: nat, reason: string, headers: HeaderList, body: string, streaming: bool, more: string)
    requires 100 <= status <= 599 && OneLine(reason) && AreHeaders(headers)
    ensures var sent := ResponseHeaders(headers, body, streaming);
            var head := HeadText(ResponseStart(status, reason), sent);
            && ParsedHead(head + body + more, false) == Parsed(Head("", "", status, reason, HeaderMap(sent, map[])), |head|)
            && (head + body)[|head|..] == body
            && forall n :: 0 <= n < |head| ==> ParsedHead((head + body)[..n], false) == Incomplete
  {
    hide StatusLine;
    hide ToDecimal;
    hide ParsedHead;
    hide HeadText;
    var sent := ResponseHeaders(headers, body, streaming);
    DecimalIsHeader(body);
    assert AreHeaders(sent);
    ResponseStartRead(status, reason);
    var start := ResponseStart(status, reason);
    assert OneLine(start);
    HeadReadBack(start, sent, body + more, false);
    HeadReadBack(start, sent, body, false);
    assert HeadText(start, sent) + body + more == HeadText(start, sent) + (body + more);
  }

  // ------------------------------------------------------------ what the header map holds

  predicate Trimmed(s: string) {
    s != "" ==> !IsBlank(s[0]) && !IsBlank(s[|s| - 1]) && s[|s| - 1] != '\r'
  }

  lemma TrimmedStays(s: string)
    requires Trimmed(s)
    ensures Trim(s) == s
  {
  }

  /** The name a header is found under. */
  function Key(h: (string, string)): string {
    ToLower(Trim(h.0))
  }

  /** A header is found under its trimmed, lower-cased name, with the trimmed last value that was sent
      for that name; without surrounding blanks both are as they were sent, but for the case. */
  lemma {:induction false} LastValueWins(headers: HeaderList, m: Headers, k: nat)
    requires k < |headers| && forall i :: k < i < |headers| ==> Key(headers[i]) != Key(headers[k])
    ensures Key(headers[k]) in HeaderMap(headers, m) && HeaderMap(headers, m)[Key(headers[k])] == Trim(headers[k].1)
    ensures Trimmed(headers[k].0) ==> Key(headers[k]) == ToLower(headers[k].0)
    ensures Trimmed(headers[k].1) ==> Trim(headers[k].1) == headers[k].1
    decreases |headers|
  {
    hide ToLower;
    hide Trim;
    var m' := m[Key(headers[0]) := Trim(headers[0].1)];
    if k == 0 {
      OthersDoNotChange(headers[1..], m', Key(headers[0]));
      if Trimmed(headers[0].0) {
        TrimmedStays(headers[0].0);
      }
      if Trimmed(headers[0].1) {
        TrimmedStays(headers[0].1);
      }
    } else {
      LastValueWins(headers[1..], m', k - 1);
    }
  }

  lemma {:induction false} OthersDoNotChange(headers: HeaderList, m: Headers, name: string)
    requires name in m && forall i :: 0 <= i < |headers| ==> Key(headers[i]) != name
    ensures name in HeaderMap(headers, m) && HeaderMap(headers, m)[name] == m[name]
    decreases |headers|
  {
    hide ToLower;
    hide Trim;
    if headers != [] {
      OthersDoNotChange(headers[1..], m[Key(headers[0]) := Trim(headers[0].1)], name);
    }
  }

  ghost predicate IsSent(headers: HeaderList, name: string) {
    exists i :: 0 <= i < |headers| && Key(headers[i]) == name
  }

  /** The map holds the names that were sent and no other. */
  lemma {:induction false} NamesAreThoseSent(headers: HeaderList, m: Headers, name: string)
    ensures name in HeaderMap(headers, m) <==> name in m || IsSent(headers, name)
    decreases |headers|
  {
    hide Key;
    if headers != [] {
      NamesAreThoseSent(headers[1..], m[ToLower(Trim(headers[0].0)) := Trim(headers[0].1)], name);
      assert ToLower(Trim(headers[0].0)) == Key(headers[0]) by {
        KeyOf(headers[0]);
      }
      if IsSent(headers[1..], name) {
        var i :| 0 <= i < |headers[1..]| && Key(headers[1..][i]) == name;
        assert Key(headers[i + 1]) == name;
      }
      if IsSent(headers, name) && Key(headers[0]) != name {
        var i :| 0 <= i < |headers| && Key(headers[i]) == name;
        assert headers[1..][i - 1] == headers[i];
      }
    }
  }

  lemma KeyOf(h: (string, string))
    ensures Key(h) == ToLower(Trim(h.0))
  {
  }

  /** The length that a written message announces, as its reader finds it. */
  ghost predicate Announces(headers: HeaderList, length: nat) {
    var m := HeaderMap(headers, map[]);
    && "content-length" in m && AllDigits(m["content-length"]) && DecimalValue(m["content-length"], 0) == length
  }

  lemma {:induction false} DigitsAreTrimmed(digits: string)
    requires AllDigits(digits) && digits != ""
    ensures Trim(digits) == digits
  {
    TrimmedStays(digits);
  }

  lemma {:induction false} LengthKey(body: string)
    ensures Key(LengthHeader(body)) == "content-length"
  {
    TrimmedStays("Content-Length");
    var name := ToLower("Content-Length");
    assert |name| == 14 && forall i :: 0 <= i < 14 ==> name[i] == "content-length"[i];
  }

  /** A length header that is written last announces the number of bytes of the body. */
  lemma {:induction false} LengthAnnounced(headers: HeaderList, body: string)
    ensures Announces(headers + [LengthHeader(body)], |body|)
  {
    hide ToDecimal;
    hide Key;
    hide Trim;
    var sent := headers + [LengthHeader(body)];
    LengthKey(body);
    LastValueWins(sent, map[], |headers|);
    DigitsAreTrimmed(ToDecimal(|body|));
    DecimalRoundTrip(|body|);
  }

  predicate IsLength(h: (string, string)) {
    ToLower(h.0) == "content-length"
  }

  /** A written request has no second length: unless the caller gave two, there is at most one. */
  lemma {:induction false} OneLengthOnly(verb: string, headers: HeaderList, body: string, i: nat, j: nat)
    requires forall a, b :: 0 <= a < b < |headers| ==> !(IsLength(headers[a]) && IsLength(headers[b]))
    ensures var sent := RequestHeaders(verb, headers, body);
            i < j < |sent| ==> !(IsLength(sent[i]) && IsLength(sent[j]))
    ensures var sent := RequestHeaders(verb, headers, body);
            body != "" || verb == "POST" ==> exists k :: 0 <= k < |sent| && IsLength(sent[k])
  {
    hide ToLower;
    var sent := RequestHeaders(verb, headers, body);
    assert IsLength(LengthHeader(body)) by {
      LengthIsLength(body);
    }
    assert HasLength(headers) <==> exists k :: 0 <= k < |headers| && IsLength(headers[k]);
    if !HasLength(headers) && (body != "" || verb == "POST") {
      assert IsLength(sent[|headers|]);
    }
  }

  lemma {:induction false} LengthIsLength(body: string)
    ensures IsLength(LengthHeader(body))
  {
    var name := ToLower("Content-Length");
    assert |name| == 14 && forall i :: 0 <= i < 14 ==> name[i] == "content-length"[i];
  }

  /** A response that is not streamed announces its body's length. A request does, unless the caller
      set a length, when it has a body or is a POST; another request without a body announces nothing. */
  lemma {:induction false} BodyLengthAnnounced(verb: string, headers: HeaderList, body: string)
    ensures Announces(ResponseHeaders(headers, body, false), |body|)
    ensures ResponseHeaders(headers, body, true) == headers
    ensures !HasLength(headers) && (body != "" || verb == "POST") ==> Announces(RequestHeaders(verb, headers, body), |body|)
    ensures HasLength(headers) || (body == "" && verb != "POST") ==> RequestHeaders(verb, headers, body) == headers
  {
    hide Announces;
    LengthAnnounced(headers, body);
  }

  // ------------------------------------------------------------ a head that is cut differently later

  const BARE_HEAD: string := "HTTP/1.1 200\n\n"

  lemma {:induction false} BareHeadLines()
    ensures Lines(BARE_HEAD) == ["HTTP/1.1 200", ""]
  {
    hide Lines;
    hide Find;
    var line := "HTTP/1.1 200";
    forall j | 0 <= j < 12
      ensures !MatchAt(BARE_HEAD, "\n", j)
    {
      assert BARE_HEAD[j..j + 1][0] == BARE_HEAD[j] == line[j];
    }
    assert BARE_HEAD[12..13] == "\n" && BARE_HEAD[..12] == line && BARE_HEAD[13..] == "\n";
    FindIs(BARE_HEAD, "\n", 0, 12);
    LinesUnfold(BARE_HEAD);
    assert "\n"[0..1] == "\n" && "\n"[1..] == "" && "\n"[..0] == "";
    FindIs("\n", "\n", 0, 0);
    LinesUnfold("\n");
    assert !MatchAt("", "\n", 0);
    LinesUnfold("");
  }

  lemma {:induction false} BareHeadStatus()
    ensures StatusLine("HTTP/1.1 200") == Some(Head("", "", 200, "", map[]))
  {
    hide Find;
    var line := "HTTP/1.1 200";
    forall j | 0 <= j <= 12 && j != 8
      ensures !MatchAt(line, " ", j)
    {
      assert j < 12 ==> line[j..j + 1][0] == line[j];
    }
    assert line[8..9] == " " && line[0..7] == "HTTP/1." && line[9..] == "200";
    FindIs(line, " ", 0, 8);
    assert "200"[1..] == "00" && "00"[1..] == "0" && "0"[1..] == "";
    assert LeadingDigits("200", 0) == LeadingDigits("00", 2) == LeadingDigits("0", 20) == LeadingDigits("", 200) == 200;
  }

  lemma {:induction false} BareHeadEnd()
    ensures HeadEnd(BARE_HEAD) == Some(14) && !Contains(BARE_HEAD, BLANK_LINE)
  {
    forall j: nat | j + 4 <= 14
      ensures !MatchAt(BARE_HEAD, BLANK_LINE, j)
    {
      assert BARE_HEAD[j..j + 4][0] == BARE_HEAD[j];
    }
    forall j: nat | j < 12
      ensures !MatchAt(BARE_HEAD, BARE_BLANK_LINE, j)
    {
      assert BARE_HEAD[j..j + 2][0] == BARE_HEAD[j];
    }
    assert BARE_HEAD[12..14] == BARE_BLANK_LINE;
    FindIs(BARE_HEAD, BARE_BLANK_LINE, 0, 12);
  }

  /** A complete response head in bare line feeds, whose body is a CRLF blank line: once the body has
      arrived, the parser no longer answers as it did before. */
  lemma {:induction false} BareHeadIsCutAgain()
    ensures ParsedHead(BARE_HEAD, false) == Parsed(Head("", "", 200, "", map[]), 14)
    ensures ParsedHead(BARE_HEAD + BLANK_LINE, false) != ParsedHead(BARE_HEAD, false)
  {
    hide Find;
    hide Lines;
    hide StatusLine;
    BareHeadLines();
    BareHeadStatus();
    BareHeadEnd();
    assert BARE_HEAD[..14] == BARE_HEAD;
    assert ["HTTP/1.1 200", ""][1..] == [""];
    AppendedBytes(BARE_HEAD, BLANK_LINE, false);
    assert (BARE_HEAD + BLANK_LINE)[14..18] == BLANK_LINE;
    assert MatchAt(BARE_HEAD + BLANK_LINE, BLANK_LINE, 14);
  }
}
