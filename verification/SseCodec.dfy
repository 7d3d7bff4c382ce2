/** Server-Sent Events on the wire: the writer and the incremental parser. */
module SseCodec {
  import opened Wrappers
  import opened Text

  const LF: string := "\n"

  datatype SseEvent = SseEvent(id: Option<string>, event: Option<string>, data: string, retry: Option<int>)

  const BLANK := SseEvent(None, None, "", None)

  // ------------------------------------------------------------ writing

  /** `std::to_string(int)`. */
  function SignedDecimal(n: int): string {
    if n < 0 then "-" + ToDecimal(-n) else ToDecimal(n)
  }

  function FieldLine(name: string, value: string): string {
    name + ": " + value
  }

  /** One data field per line of the payload. */
  function FormatData(data: string): string
    decreases |data|
  {
    match Find(data, LF, 0)
    case None => FieldLine("data", data) + LF
    case Some(nl) => FieldLine("data", data[..nl]) + LF + FormatData(data[nl + 1..])
  }

  function OptionalField(name: string, value: Option<string>): string {
    if value.Some? then FieldLine(name, value.value) + LF else ""
  }

  function RetryText(retry: Option<int>): Option<string> {
    if retry.Some? then Some(SignedDecimal(retry.value)) else None
  }

  function Format(e: SseEvent): string {
    OptionalField("retry", RetryText(e.retry)) + OptionalField("event", e.event) + OptionalField("id", e.id)
    + FormatData(e.data) + LF
  }

  lemma {:induction false} OneDataLine(data: string)
    requires '\n' !in data
    ensures FormatData(data) == "data: " + data + "\n"
  {
    forall j | 0 <= j
      ensures !MatchAt(data, LF, j)
    {
      assert j < |data| ==> data[j..j + 1][0] == data[j];
    }
  }

  /** A field as it stands on the wire, if it is there. */
  function WireField(name: string, value: Option<string>): string {
    if value.Some? then name + ": " + value.value + "\n" else ""
  }

  lemma FieldOnTheWire(name: string, value: Option<string>)
    ensures OptionalField(name, value) == WireField(name, value)
  {
  }

  /** An event on the wire: retry, event and id, each when it is there, then the data and a blank line. */
  lemma {:induction false} EventOnTheWire(e: SseEvent)
    requires '\n' !in e.data
    ensures Format(e) == WireField("retry", RetryText(e.retry)) + WireField("event", e.event) + WireField("id", e.id)
                         + ("data: " + e.data + "\n") + "\n"
  {
    hide FormatData;
    hide OptionalField;
    hide WireField;
    OneDataLine(e.data);
    FieldOnTheWire("retry", RetryText(e.retry));
    FieldOnTheWire("event", e.event);
    FieldOnTheWire("id", e.id);
  }

  method FormatSseEvent(e: SseEvent) returns (out: string)
    ensures out == Format(e)
  {
    hide FormatData;
    hide SignedDecimal;
    out := "";
    if e.retry.Some? {
      out := out + "retry: " + SignedDecimal(e.retry.value) + "\n";
    }
    var retry := OptionalField("retry", RetryText(e.retry));
    assert out == retry;
    if e.event.Some? {
      out := out + "event: " + e.event.value + "\n";
    }
    var event := OptionalField("event", e.event);
    assert out == retry + event;
    if e.id.Some? {
      out := out + "id: " + e.id.value + "\n";
    }
    assert out == retry + event + OptionalField("id", e.id);
    out := AppendDataLines(e.data, out);
    out := out + "\n";
  }

  lemma {:induction false} FormatDataUnfold(data: string)
    ensures var nl := Find(data, LF, 0);
            FormatData(data) == if nl.None? then FieldLine("data", data) + LF
                                else FieldLine("data", data[..nl.value]) + LF + FormatData(data[nl.value + 1..])
  {
  }

  /** The do-while loop over the lines of the payload. */
  method AppendDataLines(data: string, sink: string) returns (out: string)
    ensures out == sink + FormatData(data)
  {
    hide FormatData;
    out := sink;
    var pos: nat, more := 0, true;
    assert data[0..] == data;
    while more
      invariant more ==> 0 <= pos <= |data|
      invariant sink + FormatData(data) == if more then out + FormatData(data[pos..]) else out
      decreases more, |data| - pos
    {
      ghost var before := out;
      var rest := data[pos..];
      FormatDataUnfold(rest);
      var nl := Find(rest, LF, 0);
      var line := if nl.None? then rest else rest[..nl.value];
      out := out + "data: " + line + "\n";
      assert out == before + (FieldLine("data", line) + LF);
      if nl.None? {
        more := false;
      } else {
        pos := pos + nl.value + 1;
        assert rest[nl.value + 1..] == data[pos..];
        ConcatAssociative(before, FieldLine("data", line) + LF, FormatData(data[pos..]));
      }
    }
  }

  lemma ConcatAssociative<T>(a: seq<T>, b: seq<T>, c: seq<T>)
    ensures (a + b) + c == a + (b + c)
  {
  }

  function FormatAll(events: seq<SseEvent>): string {
    if events == [] then "" else Format(events[0]) + FormatAll(events[1..])
  }

  // ------------------------------------------------------------ parsing

  /** The parser's fields: unread bytes, the event being built, whether it has any field yet. */
  datatype Parser = Parser(buffer: string, current: SseEvent, anyField: bool)

  datatype Parsed = Parsed(parser: Parser, events: seq<SseEvent>)

  const FRESH := Parser("", BLANK, false)

  function FieldName(line: string): string {
    match Find(line, ":", 0)
    case None => line
    case Some(colon) => line[..colon]
  }

  function FieldValue(line: string): string {
    match Find(line, ":", 0)
    case None => ""
    case Some(colon) =>
      var value := line[colon + 1..];
      if value != "" && value[0] == ' ' then value[1..] else value
  }

  function AppendData(data: string, anyField: bool, value: string): string {
    (if anyField && data != "" then data + LF else data) + value
  }

  function SetField(p: Parser, name: string, value: string): Parser {
    if name == "data" then p.(current := p.current.(data := AppendData(p.current.data, p.anyField, value)), anyField := true)
    else if name == "id" then p.(current := p.current.(id := Some(value)), anyField := true)
    else if name == "event" then p.(current := p.current.(event := Some(value)), anyField := true)
    else if name == "retry" && value != "" && AllDigits(value) then
      p.(current := p.current.(retry := Some(DecimalValue(value, 0))), anyField := true)
    else p
  }

  /** What one complete line does to the parser. */
  function LineTaken(p: Parser, line: string): (r: Parsed)
    ensures r.parser.buffer == p.buffer
  {
    if line == "" then Parsed(Parser(p.buffer, BLANK, false), if p.anyField then [p.current] else [])
    else if line[0] == ':' then Parsed(p, [])
    else Parsed(SetField(p, FieldName(line), FieldValue(line)), [])
  }

  /** Takes every complete line out of the buffer. */
  function Drain(p: Parser): (r: Parsed)
    ensures !Contains(r.parser.buffer, LF)
    decreases |p.buffer|
  {
    match Find(p.buffer, LF, 0)
    case None => Parsed(p, [])
    case Some(nl) =>
      var taken := FirstLine(p, nl);
      After(taken.events, Drain(taken.parser))
  }

  function FirstLine(p: Parser, nl: nat): (r: Parsed)
    requires nl < |p.buffer|
    ensures |r.parser.buffer| < |p.buffer|
  {
    LineTaken(p.(buffer := p.buffer[nl + 1..]), Chomp(p.buffer[..nl]))
  }

  /** A result with `events` already out. */
  function After(events: seq<SseEvent>, r: Parsed): Parsed {
    Parsed(r.parser, events + r.events)
  }

  lemma {:induction false} DrainUnfold(p: Parser)
    ensures var nl := Find(p.buffer, LF, 0);
            Drain(p) == if nl.None? then Parsed(p, [])
                        else After(FirstLine(p, nl.value).events, Drain(FirstLine(p, nl.value).parser))
  {
  }

  function Fed(p: Parser, data: string): (r: Parsed) {
    Drain(p.(buffer := p.buffer + data))
  }

  class SseParser {
    var buffer: string
    var current: SseEvent
    var anyField: bool

    ghost function State(): Parser
      reads this
    {
      Parser(buffer, current, anyField)
    }

    constructor ()
      ensures State() == FRESH
    {
      buffer, current, anyField := "", BLANK, false;
    }

    method Feed(data: string, sink: seq<SseEvent>) returns (out: seq<SseEvent>)
      modifies this
      ensures var r := Fed(old(State()), data);
              State() == r.parser && out == sink + r.events
    {
      hide Drain;
      hide LineTaken;
      buffer := buffer + data;
      out := sink;
      ghost var done: seq<SseEvent> := [];
      ghost var all := Drain(State());
      while true
        invariant out == sink + done
        invariant all == After(done, Drain(State()))
        decreases |buffer|
      {
        ghost var before := State();
        DrainUnfold(before);
        var nl := Find(buffer, LF, 0);
        if nl.None? {
          break;
        }
        var line := buffer[..nl.value];
        buffer := buffer[nl.value + 1..];
        if line != "" && line[|line| - 1] == '\r' {
          line := line[..|line| - 1];
        }
        var events := TakeLine(line);
        assert Drain(before) == After(events, Drain(State()));
        ConcatAssociative(sink, done, events);
        ConcatAssociative(done, events, Drain(State()).events);
        out := out + events;
        done := done + events;
      }
    }

    method TakeLine(line: string) returns (events: seq<SseEvent>)
      modifies this
      ensures var r := LineTaken(old(State()), line);
              State() == r.parser && events == r.events
    {
      events := [];
      if line == "" {
        if anyField {
          events := [current];
        }
        current := BLANK;
        anyField := false;
        return;
      }
      if line[0] == ':' {
        return;
      }
      var field, value := line, "";
      var colon := Find(line, ":", 0);
      if colon.Some? {
        field := line[..colon.value];
        value := line[colon.value + 1..];
        if value != "" && value[0] == ' ' {
          value := value[1..];
        }
      }
      if field == "data" {
        if anyField && current.data != "" {
          current := current.(data := current.data + "\n");
        }
        current := current.(data := current.data + value);
        anyField := true;
      } else if field == "id" {
        current := current.(id := Some(value));
        anyField := true;
      } else if field == "event" {
        current := current.(event := Some(value));
        anyField := true;
      } else if field == "retry" {
        if value != "" && AllDigits(value) {
          current := current.(retry := Some(DecimalValue(value, 0)));
          anyField := true;
        }
      }
    }
  }

  // ------------------------------------------------------------ independence of how bytes are split

  lemma LineTakenFrame(p: Parser, line: string, buffer: string)
    ensures var r := LineTaken(p, line);
            LineTaken(p.(buffer := buffer), line) == Parsed(r.parser.(buffer := buffer), r.events)
  {
  }

  lemma FirstLineAppend(p: Parser, more: string)
    requires Find(p.buffer, LF, 0).Some?
    ensures var nl := Find(p.buffer, LF, 0).value;
            var r := FirstLine(p, nl);
            Find(p.buffer + more, LF, 0) == Some(nl) &&
            FirstLine(p.(buffer := p.buffer + more), nl) == r.(parser := r.parser.(buffer := r.parser.buffer + more))
  {
    hide LineTaken;
    var i := Find(p.buffer, LF, 0).value;
    FindAppend(p.buffer, more, LF, 0);
    assert (p.buffer + more)[..i] == p.buffer[..i];
    assert (p.buffer + more)[i + 1..] == p.buffer[i + 1..] + more;
    LineTakenFrame(p.(buffer := p.buffer[i + 1..]), Chomp(p.buffer[..i]), p.buffer[i + 1..] + more);
  }

  lemma {:induction false} DrainResumes(p: Parser, more: string)
    ensures Fed(p, more) == After(Drain(p).events, Fed(Drain(p).parser, more))
    decreases |p.buffer|
  {
    hide Drain;
    hide FirstLine;
    DrainUnfold(p);
    var nl := Find(p.buffer, LF, 0);
    if nl.Some? {
      var taken := FirstLine(p, nl.value);
      FirstLineAppend(p, more);
      DrainUnfold(p.(buffer := p.buffer + more));
      DrainResumes(taken.parser, more);
      ConcatAssociative(taken.events, Drain(taken.parser).events, Fed(Drain(taken.parser).parser, more).events);
    }
  }

  function FeedAll(p: Parser, pieces: seq<string>): Parsed
    decreases |pieces|
  {
    if pieces == [] then Parsed(p, [])
    else
      var first := Fed(p, pieces[0]);
      var rest := FeedAll(first.parser, pieces[1..]);
      Parsed(rest.parser, first.events + rest.events)
  }

  /** However a text is cut into pieces, the parser ends in the same state with the same events. */
  lemma {:induction false} SplitIndependent(p: Parser, pieces: seq<string>)
    requires !Contains(p.buffer, LF)
    ensures FeedAll(p, pieces) == Fed(p, Flatten(pieces))
    decreases |pieces|
  {
    if pieces == [] {
      assert p.buffer + "" == p.buffer;
    } else {
      var q := p.(buffer := p.buffer + pieces[0]);
      DrainResumes(q, Flatten(pieces[1..]));
      assert q.buffer + Flatten(pieces[1..]) == p.buffer + Flatten(pieces);
      SplitIndependent(Drain(q).parser, pieces[1..]);
    }
  }

  // ------------------------------------------------------------ what survives a round trip

  predicate NoLineFeed(s: string) {
    '\n' !in s
  }

  predicate CleanText(s: Option<string>) {
    s.Some? ==> NoLineFeed(s.value) && Chomp(s.value) == s.value
  }

  /** No CR stands at the end of a line. */
  predicate NoTrailingCr(data: string) {
    forall i :: 0 <= i < |data| && data[i] == '\r' ==> i + 1 < |data| && data[i + 1] != '\n'
  }

  predicate CleanData(data: string) {
    NoTrailingCr(data) && (data == "" || data[0] != '\n')
  }

  /** The events that survive being written and read back. */
  predicate Clean(e: SseEvent) {
    CleanText(e.id) && CleanText(e.event) && CleanData(e.data) && (e.retry.Some? ==> e.retry.value >= 0)
  }

  function ChompText(s: Option<string>): Option<string> {
    if s.Some? then Some(Chomp(s.value)) else None
  }

  /** The payload a reader rebuilds from the lines of `data` after `acc`. */
  function Rebuild(acc: string, data: string): string
    decreases |data|
  {
    match Find(data, LF, 0)
    case None => AppendData(acc, true, Chomp(data))
    case Some(nl) => Rebuild(AppendData(acc, true, Chomp(data[..nl])), data[nl + 1..])
  }

  /** What any one-line event becomes when it is written and read back. */
  function Normal(e: SseEvent): SseEvent {
    SseEvent(ChompText(e.id), ChompText(e.event), Rebuild("", e.data),
             if e.retry.Some? && e.retry.value >= 0 then e.retry else None)
  }

  function ChompLines(data: string): string
    decreases |data|
  {
    match Find(data, LF, 0)
    case None => Chomp(data)
    case Some(nl) => Chomp(data[..nl]) + LF + ChompLines(data[nl + 1..])
  }

  lemma NoTrailingCrSplit(data: string, nl: nat)
    requires Find(data, LF, 0) == Some(nl)
    ensures NoTrailingCr(data) <==> Chomp(data[..nl]) == data[..nl] && NoTrailingCr(data[nl + 1..])
  {
    var line, rest := data[..nl], data[nl + 1..];
    assert data[nl..nl + 1] == LF && data[nl] == '\n';
    forall i | 0 <= i < nl
      ensures data[i] != '\n'
    {
      assert !MatchAt(data, LF, i);
    }
    if Chomp(line) == line && NoTrailingCr(rest) {
      forall i | 0 <= i < |data| && data[i] == '\r'
        ensures i + 1 < |data| && data[i + 1] != '\n'
      {
        if i > nl {
          assert rest[i - nl - 1] == '\r';
          assert data[i + 1] == rest[i - nl];
        }
      }
    }
    if NoTrailingCr(data) {
      forall i | 0 <= i < |rest| && rest[i] == '\r'
        ensures i + 1 < |rest| && rest[i + 1] != '\n'
      {
        assert data[i + nl + 1] == '\r';
      }
    }
  }

  lemma {:induction false} ChompLinesIdentity(data: string)
    ensures |ChompLines(data)| <= |data|
    ensures ChompLines(data) == data <==> NoTrailingCr(data)
    decreases |data|
  {
    var nl := Find(data, LF, 0);
    if nl.None? {
      forall i | 0 <= i < |data|
        ensures data[i] != '\n'
      {
        assert !MatchAt(data, LF, i);
      }
    } else {
      var line, rest := data[..nl.value], data[nl.value + 1..];
      NoTrailingCrSplit(data, nl.value);
      ChompLinesIdentity(rest);
      assert data == line + LF + rest;
      if ChompLines(data) == data {
        assert |Chomp(line)| == |line| && |ChompLines(rest)| == |rest|;
        assert ChompLines(data)[..|line|] == line && ChompLines(data)[|line| + 1..] == rest;
      }
    }
  }

  lemma {:induction false} RebuildAfterText(acc: string, data: string)
    requires acc != ""
    ensures Rebuild(acc, data) == acc + LF + ChompLines(data)
    decreases |data|
  {
    var nl := Find(data, LF, 0);
    if nl.Some? {
      var line, rest := Chomp(data[..nl.value]), data[nl.value + 1..];
      RebuildAfterText(acc + LF + line, rest);
      assert (acc + LF + line) + LF + ChompLines(rest) == acc + LF + (line + LF + ChompLines(rest));
    }
  }

  /** A payload is rebuilt exactly when it does not begin with a newline and no line ends in CR. */
  lemma {:induction false} RebuildIdentity(data: string)
    ensures |Rebuild("", data)| <= |data|
    ensures Rebuild("", data) == data <==> CleanData(data)
    decreases |data|
  {
    var nl := Find(data, LF, 0);
    if nl.None? {
      ChompLinesIdentity(data);
      if data != "" {
        assert !MatchAt(data, LF, 0);
      }
      assert "" + Chomp(data) == Chomp(data);
    } else {
      var line, rest := data[..nl.value], data[nl.value + 1..];
      assert "" + Chomp(line) == Chomp(line);
      assert data == line + LF + rest;
      ChompLinesIdentity(data);
      ChompLinesIdentity(rest);
      if Chomp(line) == "" {
        RebuildIdentity(rest);
        if line != "" {
          NoTrailingCrSplit(data, nl.value);
        }
      } else {
        RebuildAfterText(Chomp(line), rest);
        assert Rebuild("", data) == ChompLines(data);
        assert data[0] == line[0];
        assert !MatchAt(data, LF, 0);
      }
    }
  }

  lemma NormalIdentity(e: SseEvent)
    requires PlainFields(e)
    ensures Normal(e) == e <==> Clean(e)
  {
    RebuildIdentity(e.data);
  }

  // ------------------------------------------------------------ reading back what was written

  predicate IsFieldName(name: string) {
    name in ["data", "id", "event", "retry"]
  }

  lemma ColonEndsName(name: string, value: string)
    requires IsFieldName(name)
    ensures Find(FieldLine(name, value), ":", 0) == Some(|name|)
    ensures FieldName(FieldLine(name, value)) == name && FieldValue(FieldLine(name, value)) == value
  {
    var line := FieldLine(name, value);
    assert ':' !in name;
    forall j | 0 <= j < |name|
      ensures !MatchAt(line, ":", j)
    {
      assert line[j..j + 1][0] == name[j];
    }
    assert line[|name|..|name| + 1] == ":";
    FindIs(line, ":", 0, |name|);
    assert line[..|name|] == name;
    assert line[|name| + 1..] == " " + value;
    assert (" " + value)[1..] == value;
  }

  lemma ChompedField(name: string, value: string)
    requires IsFieldName(name)
    ensures Chomp(FieldLine(name, value)) == FieldLine(name, Chomp(value)) && FieldLine(name, value)[0] == name[0]
  {
  }

  lemma {:induction false} FieldTaken(p: Parser, name: string, value: string)
    requires IsFieldName(name)
    ensures LineTaken(p, FieldLine(name, value)) == Parsed(SetField(p, name, value), [])
  {
    hide SetField;
    hide FieldName;
    hide FieldValue;
    ColonEndsName(name, value);
    ChompedField(name, value);
    hide FieldLine;
  }

  lemma {:induction false} ColonAfter(name: string, rest: string)
    requires ':' !in name
    ensures Find(name + ":" + rest, ":", 0) == Some(|name|)
    ensures Find(name, ":", 0) == None
  {
    var line := name + ":" + rest;
    forall j | 0 <= j < |name|
      ensures !MatchAt(line, ":", j) && !MatchAt(name, ":", j)
    {
      assert line[j..j + 1][0] == name[j] && name[j..j + 1][0] == name[j];
    }
    assert line[|name|..|name| + 1] == ":";
    FindIs(line, ":", 0, |name|);
  }

  /** How any line that names a field is read: one space after the colon does not belong to the value,
      and a line without a colon has an empty value. */
  lemma {:induction false} FieldLinesRead(p: Parser, name: string, value: string)
    requires name != "" && ':' !in name
    ensures LineTaken(p, name + ": " + value) == Parsed(SetField(p, name, value), [])
    ensures (value == "" || value[0] != ' ') ==> LineTaken(p, name + ":" + value) == Parsed(SetField(p, name, value), [])
    ensures LineTaken(p, name) == Parsed(SetField(p, name, ""), [])
  {
    hide SetField;
    hide Find;
    ColonAfter(name, " " + value);
    ColonAfter(name, value);
    var spaced, tight := name + ":" + (" " + value), name + ":" + value;
    assert spaced == name + ": " + value;
    assert spaced[0] == name[0] && tight[0] == name[0];
    assert spaced[..|name|] == name && spaced[|name| + 1..] == " " + value && (" " + value)[1..] == value;
    assert tight[..|name|] == name && tight[|name| + 1..] == value;
  }

  /** What a field does: comments, unknown names and retries that are no number do nothing; data lines
      are joined with line feeds; the other fields keep their last value. */
  lemma FieldsKept(p: Parser, name: string, value: string)
    ensures LineTaken(p, ":" + value) == Parsed(p, [])
    ensures name !in ["data", "id", "event", "retry"] ==> SetField(p, name, value) == p
    ensures value == "" || !AllDigits(value) ==> SetField(p, "retry", value) == p
    ensures value != "" && AllDigits(value) ==>
              SetField(p, "retry", value) == p.(current := p.current.(retry := Some(DecimalValue(value, 0))), anyField := true)
    ensures SetField(p, "id", value) == p.(current := p.current.(id := Some(value)), anyField := true)
    ensures SetField(p, "event", value) == p.(current := p.current.(event := Some(value)), anyField := true)
    ensures var q := SetField(p, "data", value);
            && q == p.(current := p.current.(data := q.current.data), anyField := true)
            && q.current.data == if p.anyField && p.current.data != "" then p.current.data + "\n" + value else p.current.data + value
  {
  }

  /** A written field line sets that field. */
  lemma {:induction false} FieldDrains(p: Parser, name: string, value: string, rest: string)
    requires IsFieldName(name) && NoLineFeed(value)
    ensures Drain(p.(buffer := FieldLine(name, value) + LF + rest)) ==
            Drain(SetField(p.(buffer := rest), name, Chomp(value)))
  {
    hide Drain;
    hide SetField;
    hide LineTaken;
    hide Chomp;
    assert NoLineFeed(FieldLine(name, value));
    LineDrains(p, FieldLine(name, value), rest);
    ChompedField(name, value);
    FieldTaken(p.(buffer := rest), name, Chomp(value));
    var next := Drain(SetField(p.(buffer := rest), name, Chomp(value)));
    assert [] + next.events == next.events;
  }

  lemma LineDrains(p: Parser, line: string, rest: string)
    requires NoLineFeed(line)
    ensures var taken := LineTaken(p.(buffer := rest), Chomp(line));
            Drain(p.(buffer := line + LF + rest)) == After(taken.events, Drain(taken.parser))
  {
    hide LineTaken;
    hide Drain;
    var s := line + LF + rest;
    forall j | 0 <= j < |line|
      ensures !MatchAt(s, LF, j)
    {
      assert s[j..j + 1][0] == line[j];
    }
    assert s[|line|..|line| + 1] == LF;
    FindIs(s, LF, 0, |line|);
    assert s[..|line|] == line && s[|line| + 1..] == rest;
    DrainUnfold(p.(buffer := s));
  }

  lemma OptionalFieldDrains(p: Parser, name: string, value: Option<string>, rest: string)
    requires IsFieldName(name) && (value.Some? ==> NoLineFeed(value.value))
    ensures Drain(p.(buffer := OptionalField(name, value) + rest)) ==
            Drain(if value.Some? then SetField(p.(buffer := rest), name, Chomp(value.value)) else p.(buffer := rest))
  {
    hide Drain;
    if value.Some? {
      FieldDrains(p, name, value.value, rest);
    } else {
      assert "" + rest == rest;
    }
  }

  lemma {:induction false} DataDrains(p: Parser, data: string, rest: string)
    requires !p.anyField ==> p.current.data == ""
    ensures Drain(p.(buffer := FormatData(data) + rest)) ==
            Drain(Parser(rest, p.current.(data := Rebuild(p.current.data, data)), true))
    decreases |data|
  {
    hide Drain;
    hide FormatData;
    hide Rebuild;
    FormatDataUnfold(data);
    RebuildUnfold(p.current.data, data);
    var nl := Find(data, LF, 0);
    var line := if nl.None? then data else data[..nl.value];
    FirstLineIsOneLine(data);
    var next := p.current.(data := AppendData(p.current.data, true, Chomp(line)));
    var tail := if nl.None? then rest else FormatData(data[nl.value + 1..]) + rest;
    assert FormatData(data) + rest == FieldLine("data", line) + LF + tail;
    FieldDrains(p, "data", line, tail);
    assert SetField(p.(buffer := tail), "data", Chomp(line)) == Parser(tail, next, true);
    if nl.Some? {
      DataDrains(Parser(tail, next, true), data[nl.value + 1..], rest);
    }
  }

  lemma {:induction false} RebuildUnfold(acc: string, data: string)
    ensures var nl := Find(data, LF, 0);
            Rebuild(acc, data) == if nl.None? then AppendData(acc, true, Chomp(data))
                                  else Rebuild(AppendData(acc, true, Chomp(data[..nl.value])), data[nl.value + 1..])
  {
  }

  lemma FirstLineIsOneLine(s: string)
    ensures var nl := Find(s, LF, 0);
            NoLineFeed(if nl.None? then s else s[..nl.value])
  {
    var nl := Find(s, LF, 0);
    var line := if nl.None? then s else s[..nl.value];
    forall i | 0 <= i < |line|
      ensures line[i] != '\n'
    {
      assert !MatchAt(s, LF, i);
      assert s[i..i + 1][0] == line[i];
    }
  }

  lemma RetryDrains(p: Parser, retry: Option<int>, rest: string)
    ensures Drain(p.(buffer := OptionalField("retry", RetryText(retry)) + rest)) ==
            Drain(if retry.Some? && retry.value >= 0
                  then Parser(rest, p.current.(retry := retry), true) else p.(buffer := rest))
  {
    hide Drain;
    var text := RetryText(retry);
    if retry.Some? {
      if retry.value >= 0 {
        DecimalRoundTrip(retry.value);
      } else {
        assert text.value[0] == '-';
      }
      assert Chomp(text.value) == text.value;
    }
    OptionalFieldDrains(p, "retry", text, rest);
  }

  predicate PlainFields(e: SseEvent) {
    (e.id.Some? ==> NoLineFeed(e.id.value)) && (e.event.Some? ==> NoLineFeed(e.event.value))
  }

  lemma FormatParts(retry: string, event: string, id: string, data: string, rest: string)
    ensures retry + event + id + data + LF + rest == retry + (event + (id + (data + (LF + rest))))
  {
  }

  lemma {:induction false} EventDrains(e: SseEvent, rest: string)
    requires PlainFields(e)
    ensures Drain(Parser(Format(e) + rest, BLANK, false)) == After([Normal(e)], Drain(Parser(rest, BLANK, false)))
  {
    hide Drain;
    hide FormatData;
    var s4 := LF + rest;
    var s3 := FormatData(e.data) + s4;
    var s2 := OptionalField("id", e.id) + s3;
    var s1 := OptionalField("event", e.event) + s2;
    var s0 := OptionalField("retry", RetryText(e.retry)) + s1;
    FormatParts(OptionalField("retry", RetryText(e.retry)), OptionalField("event", e.event), OptionalField("id", e.id),
                FormatData(e.data), rest);
    assert Format(e) + rest == s0;
    hide Format;
    hide OptionalField;
    var retry := if e.retry.Some? && e.retry.value >= 0 then e.retry else None;
    var p1 := Parser(s1, BLANK.(retry := retry), retry.Some?);
    RetryDrains(Parser(s0, BLANK, false), e.retry, s1);
    OptionalFieldDrains(p1, "event", e.event, s2);
    var p2 := Parser(s2, p1.current.(event := ChompText(e.event)), p1.anyField || e.event.Some?);
    OptionalFieldDrains(p2, "id", e.id, s3);
    var p3 := Parser(s3, p2.current.(id := ChompText(e.id)), p2.anyField || e.id.Some?);
    DataDrains(p3, e.data, s4);
    assert p3.current.(data := Rebuild("", e.data)) == Normal(e);
    LineDrains(Parser(s4, Normal(e), true), "", rest);
    assert "" + LF + rest == s4;
  }

  function NormalAll(events: seq<SseEvent>): (r: seq<SseEvent>)
    ensures |r| == |events| && forall i :: 0 <= i < |r| ==> r[i] == Normal(events[i])
  {
    seq(|events|, i requires 0 <= i < |events| => Normal(events[i]))
  }

  lemma {:induction false} FormattedEventsDrain(events: seq<SseEvent>)
    requires forall e :: e in events ==> PlainFields(e)
    ensures Drain(Parser(FormatAll(events), BLANK, false)) == Parsed(FRESH, NormalAll(events))
    decreases |events|
  {
    hide Format;
    hide LineTaken;
    if events != [] {
      EventDrains(events[0], FormatAll(events[1..]));
      FormattedEventsDrain(events[1..]);
    }
  }

  lemma SetFieldKeepsOneLine(p: Parser, name: string, value: string)
    requires PlainFields(p.current) && NoLineFeed(value)
    ensures PlainFields(SetField(p, name, value).current)
  {
  }

  lemma ValueIsOneLine(line: string)
    requires NoLineFeed(line)
    ensures NoLineFeed(FieldValue(line))
  {
  }

  /** A parser never builds an event whose id or name spans lines. */
  lemma {:induction false} DrainedFieldsAreOneLine(p: Parser)
    requires PlainFields(p.current)
    ensures PlainFields(Drain(p).parser.current)
    ensures forall e :: e in Drain(p).events ==> PlainFields(e)
    decreases |p.buffer|
  {
    hide Drain;
    hide SetField;
    DrainUnfold(p);
    var nl := Find(p.buffer, LF, 0);
    if nl.Some? {
      var line := p.buffer[..nl.value];
      FirstLineIsOneLine(p.buffer);
      ValueIsOneLine(Chomp(line));
      hide Find;
      hide NoLineFeed;
      hide FieldValue;
      SetFieldKeepsOneLine(p.(buffer := p.buffer[nl.value + 1..]), FieldName(Chomp(line)), FieldValue(Chomp(line)));
      DrainedFieldsAreOneLine(FirstLine(p, nl.value).parser);
    }
  }

  /** Writing a list of events and feeding the text in any pieces gives back exactly that list
      if and only if every event is clean. */
  lemma {:induction false} EventsRoundTrip(events: seq<SseEvent>, pieces: seq<string>)
    requires Flatten(pieces) == FormatAll(events)
    ensures FeedAll(FRESH, pieces).events == events <==> forall e :: e in events ==> Clean(e)
    ensures (forall e :: e in events ==> PlainFields(e)) ==> FeedAll(FRESH, pieces) == Parsed(FRESH, NormalAll(events))
  {
    hide Drain;
    hide FormatAll;
    hide FeedAll;
    SplitIndependent(FRESH, pieces);
    assert "" + FormatAll(events) == FormatAll(events);
    if forall e :: e in events ==> PlainFields(e) {
      FormattedEventsDrain(events);
      forall e | e in events
        ensures Normal(e) == e <==> Clean(e)
      {
        NormalIdentity(e);
      }
      if NormalAll(events) == events {
        forall e | e in events
          ensures Clean(e)
        {
          var i :| 0 <= i < |events| && events[i] == e;
          assert NormalAll(events)[i] == e;
        }
      }
    } else {
      DrainedFieldsAreOneLine(Parser(FormatAll(events), BLANK, false));
    }
  }
}
