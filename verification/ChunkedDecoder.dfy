/** The incremental decoder of `Transfer-Encoding: chunked` bodies (section 7.1 of RFC 9112). */
module ChunkedDecoding {
  import opened Wrappers
  import opened Text

  datatype Status = NeedMore | Done | Error

  datatype Phase = Size | Data | DataCrlf | Trailers

  /** What a decoder has become and what it has produced. */
  datatype Outcome = Outcome(phase: Phase, remaining: nat, buffer: string, out: string, status: Status)

  // ------------------------------------------------------------ size lines

  function HexDigit(c: char): (d: int)
    ensures -1 <= d < 16
  {
    if '0' <= c <= '9' then c as int - '0' as int
    else if 'a' <= c <= 'f' then c as int - 'a' as int + 10
    else if 'A' <= c <= 'F' then c as int - 'A' as int + 10
    else -1
  }

  /** The digits in the order of their values, in both cases; nothing else is a digit. */
  lemma HexDigitsInOrder(c: char, d: nat)
    ensures d < 16 ==> HexDigit("0123456789abcdef"[d]) == d && HexDigit("0123456789ABCDEF"[d]) == d
    ensures HexDigit(c) == -1 <==> c !in "0123456789abcdef" && c !in "0123456789ABCDEF"
  {
    var lower, upper := "0123456789abcdef", "0123456789ABCDEF";
    if HexDigit(c) >= 0 {
      assert lower[HexDigit(c)] == c || upper[HexDigit(c)] == c;
    }
  }

  predicate AllHex(s: string) {
    forall i :: 0 <= i < |s| ==> HexDigit(s[i]) >= 0
  }

  /** The unbounded number written by hexadecimal digits after `acc`. */
  function HexValue(s: string, acc: nat): nat
    requires AllHex(s)
  {
    if s == "" then acc else HexValue(s[1..], acc * 16 + HexDigit(s[0]))
  }

  /** The size a line announces, in 64-bit arithmetic; None when the line is malformed. */
  function SizeOfLine(line: string, size: nat, any: bool): Option<nat> {
    if line == "" || line[0] == ';' then
      if any then Some(size) else None
    else if HexDigit(line[0]) < 0 then None
    else SizeOfLine(line[1..], (size * 16 + HexDigit(line[0])) % TWO_TO_64, true)
  }

  // ------------------------------------------------------------ decoding

  /** One turn of the decoding loop: it stops, or goes round again with less input. */
  datatype Turn = Stop(o: Outcome) | Again(phase: Phase, remaining: nat, buffer: string, out: string)

  function Advance(phase: Phase, remaining: nat, buffer: string, out: string): (t: Turn)
    requires phase == Data ==> remaining > 0
    ensures t.Again? ==> |t.buffer| < |buffer| && (t.phase == Data ==> t.remaining > 0)
    ensures t.Stop? ==> t.o.phase == phase && (phase == Data ==> t.o.remaining > 0)
  {
    match phase
    case Size =>
      (match Find(buffer, CRLF, 0)
       case None => Stop(Outcome(Size, remaining, buffer, out, NeedMore))
       case Some(nl) =>
         match SizeOfLine(buffer[..nl], 0, false)
         case None => Stop(Outcome(Size, remaining, buffer[nl + 2..], out, Error))
         case Some(size) =>
           if size == 0 then Again(Trailers, remaining, buffer[nl + 2..], out)
           else Again(Data, size, buffer[nl + 2..], out))
    case Data =>
      if remaining > |buffer| then Stop(Outcome(Data, remaining - |buffer|, "", out + buffer, NeedMore))
      else Again(DataCrlf, 0, buffer[remaining..], out + buffer[..remaining])
    case DataCrlf =>
      if |buffer| < 2 then Stop(Outcome(DataCrlf, remaining, buffer, out, NeedMore))
      else if buffer[..2] != CRLF then Stop(Outcome(DataCrlf, remaining, buffer, out, Error))
      else Again(Size, remaining, buffer[2..], out)
    case Trailers =>
      match Find(buffer, CRLF, 0)
      case None => Stop(Outcome(Trailers, remaining, buffer, out, NeedMore))
      case Some(nl) =>
        if nl == 0 then Stop(Outcome(Trailers, remaining, buffer[2..], out, Done))
        else Again(Trailers, remaining, buffer[nl + 2..], out)
  }

  /** Everything one call of `feed` does, as a function of the decoder's state and its input. */
  function Decode(phase: Phase, remaining: nat, buffer: string, out: string): (o: Outcome)
    requires phase == Data ==> remaining > 0
    ensures o.phase == Data ==> o.remaining > 0
    decreases |buffer|
  {
    match Advance(phase, remaining, buffer, out)
    case Stop(o) => o
    case Again(phase', remaining', buffer', out') => Decode(phase', remaining', buffer', out')
  }

  /** The decoder object: its two fields survive from one `Feed` to the next. */
  class ChunkedDecoder {
    var phase: Phase
    var remaining: nat

    ghost predicate Valid()
      reads this
    {
      phase == Data ==> remaining > 0
    }

    constructor ()
      ensures Valid() && phase == Size && remaining == 0
    {
      phase, remaining := Size, 0;
    }

    /** Consumes what can be decoded from the front of `input`, appending payload to `sink`. */
    method Feed(input: string, sink: string) returns (status: Status, buffer: string, out: string)
      requires Valid()
      modifies this
      ensures Valid()
      ensures Outcome(phase, remaining, buffer, out, status) == Decode(old(phase), old(remaining), input, sink)
    {
      buffer, out := input, sink;
      while true
        invariant Valid()
        invariant Decode(phase, remaining, buffer, out) == Decode(old(phase), old(remaining), input, sink)
        decreases |buffer|, phase == Data
      {
        match phase
        case Size =>
          var nl := Find(buffer, CRLF, 0);
          if nl.None? {
            return NeedMore, buffer, out;
          }
          var size := ParseSizeLine(buffer[..nl.value]);
          buffer := buffer[nl.value + 2..];
          if size.None? {
            return Error, buffer, out;
          }
          if size.value == 0 {
            phase := Trailers;
          } else {
            remaining, phase := size.value, Data;
          }
        case Data =>
          var take := if remaining < |buffer| then remaining else |buffer|;
          out := out + buffer[..take];
          buffer := buffer[take..];
          remaining := remaining - take;
          if remaining > 0 {
            return NeedMore, buffer, out;
          }
          phase := DataCrlf;
        case DataCrlf =>
          if |buffer| < 2 {
            return NeedMore, buffer, out;
          }
          if buffer[..2] != CRLF {
            return Error, buffer, out;
          }
          buffer := buffer[2..];
          phase := Size;
        case Trailers =>
          var nl := Find(buffer, CRLF, 0);
          if nl.None? {
            return NeedMore, buffer, out;
          }
          var blank := nl.value == 0;
          buffer := buffer[nl.value + 2..];
          if blank {
            return Done, buffer, out;
          }
      }
    }
  }

  /** The digit loop over one size line. */
  method ParseSizeLine(line: string) returns (r: Option<nat>)
    ensures r == SizeOfLine(line, 0, false)
  {
    var size: nat, any, i := 0, false, 0;
    while i < |line| && line[i] != ';'
      invariant 0 <= i <= |line|
      invariant SizeOfLine(line[i..], size, any) == SizeOfLine(line, 0, false)
    {
      var digit := HexDigit(line[i]);
      assert line[i..][1..] == line[i + 1..];
      if digit < 0 {
        return None;
      }
      size := (size * 16 + digit) % TWO_TO_64;
      any := true;
      i := i + 1;
    }
    r := if any then Some(size) else None;
  }

  // ------------------------------------------------------------ independence of how bytes are split

  lemma SliceAppend(s: string, t: string, n: nat)
    requires n <= |s|
    ensures (s + t)[..n] == s[..n] && (s + t)[n..] == s[n..] + t
  {
  }

  /** One turn sees the bytes at the front only. */
  lemma AdvanceAppend(phase: Phase, remaining: nat, buffer: string, out: string, more: string)
    requires phase == Data ==> remaining > 0
    ensures AppendsTo(Advance(phase, remaining, buffer, out), Advance(phase, remaining, buffer + more, out), more)
  {
    match phase
    case Data =>
      DataAppend(remaining, buffer, out, more);
    case DataCrlf =>
      if |buffer| >= 2 {
        SliceAppend(buffer, more, 2);
      }
    case _ =>
      var nl := Find(buffer, CRLF, 0);
      if nl.Some? {
        FindAppend(buffer, more, CRLF, 0);
        SliceAppend(buffer, more, nl.value);
        SliceAppend(buffer, more, nl.value + 2);
      }
  }

  /** `t'` is the turn `t` taken with `more` behind the input. */
  predicate AppendsTo(t: Turn, t': Turn, more: string)
    requires t.Stop? && t.o.phase == Data ==> t.o.remaining > 0
  {
    if t.Again? then t' == t.(buffer := t.buffer + more)
    else if t.o.status == NeedMore then t' == Advance(t.o.phase, t.o.remaining, t.o.buffer + more, t.o.out)
    else t' == Stop(t.o.(buffer := t.o.buffer + more))
  }

  lemma MiddleSlice(s: string, t: string, n: nat)
    requires |s| <= n <= |s| + |t|
    ensures (s + t)[n..] == t[n - |s|..] && (s + t)[..n] == s + t[..n - |s|]
  {
  }

  lemma Associate(a: string, b: string, c: string)
    ensures a + (b + c) == (a + b) + c
  {
  }

  lemma {:induction false} DataAppend(remaining: nat, buffer: string, out: string, more: string)
    requires remaining > 0
    ensures AppendsTo(Advance(Data, remaining, buffer, out), Advance(Data, remaining, buffer + more, out), more)
  {
    hide SizeOfLine;
    hide Find;
    if remaining <= |buffer| {
      SliceAppend(buffer, more, remaining);
    } else {
      assert "" + more == more;
      var k := remaining - |buffer|;
      if k > |more| {
        Associate(out, buffer, more);
      } else {
        MiddleSlice(buffer, more, remaining);
        Associate(out, buffer, more[..k]);
      }
    }
  }

  /** Bytes that arrive later can be decoded later. */
  lemma {:induction false} DecodeResumes(phase: Phase, remaining: nat, buffer: string, out: string, more: string)
    requires phase == Data ==> remaining > 0
    ensures var o := Decode(phase, remaining, buffer, out);
            Decode(phase, remaining, buffer + more, out) ==
            if o.status == NeedMore then Decode(o.phase, o.remaining, o.buffer + more, o.out)
            else o.(buffer := o.buffer + more)
    decreases |buffer|
  {
    AdvanceAppend(phase, remaining, buffer, out, more);
    match Advance(phase, remaining, buffer, out)
    case Stop(_) =>
    case Again(phase', remaining', buffer', out') => DecodeResumes(phase', remaining', buffer', out', more);
  }

  /** A reader that appends each piece to its buffer and feeds it until the decoder stops;
      pieces it has not read are still ahead of it. */
  function FeedAll(o: Outcome, pieces: seq<string>): Outcome
    requires o.phase == Data ==> o.remaining > 0
    decreases |pieces|
  {
    if o.status != NeedMore || pieces == [] then o.(buffer := o.buffer + Flatten(pieces))
    else FeedAll(Decode(o.phase, o.remaining, o.buffer + pieces[0], o.out), pieces[1..])
  }

  /** However the input is cut into pieces, decoding it ends as one call on the whole would. */
  lemma {:induction false} SplitIndependent(o: Outcome, pieces: seq<string>)
    requires o.phase == Data ==> o.remaining > 0
    requires o.status == NeedMore && Decode(o.phase, o.remaining, o.buffer, o.out) == o
    ensures FeedAll(o, pieces) == Decode(o.phase, o.remaining, o.buffer + Flatten(pieces), o.out)
    decreases |pieces|
  {
    hide Decode;
    if pieces == [] {
      assert o.buffer + "" == o.buffer;
    } else {
      var next := Decode(o.phase, o.remaining, o.buffer + pieces[0], o.out);
      DecodeResumes(o.phase, o.remaining, o.buffer + pieces[0], o.out, Flatten(pieces[1..]));
      assert (o.buffer + pieces[0]) + Flatten(pieces[1..]) == o.buffer + Flatten(pieces);
      if next.status == NeedMore {
        DecodeResumes(o.phase, o.remaining, o.buffer + pieces[0], o.out, "");
        assert (o.buffer + pieces[0]) + "" == o.buffer + pieces[0];
        assert next.buffer + "" == next.buffer;
        SplitIndependent(next, pieces[1..]);
      }
    }
  }

  const START := Outcome(Size, 0, "", "", NeedMore)

  lemma FreshDecoderSplitIndependent(pieces: seq<string>)
    ensures FeedAll(START, pieces) == Decode(Size, 0, Flatten(pieces), "")
  {
    SplitIndependent(START, pieces);
    assert "" + Flatten(pieces) == Flatten(pieces);
  }

  // ------------------------------------------------------------ decoding inverts encoding

  datatype Chunk = Chunk(size: string, extension: string, data: string)

  /** A chunked body: chunks, the line of the last chunk, trailer lines. */
  datatype Body = Body(chunks: seq<Chunk>, lastSize: string, lastExtension: string, trailers: seq<string>)

  predicate NoCrlf(s: string) {
    forall i :: 0 <= i < |s| ==> !MatchAt(s, CRLF, i)
  }

  /** chunk-ext of RFC 9112 begins with a semicolon, or with "bad whitespace" before one. */
  predicate IsExtension(s: string) {
    s == "" || s[0] == ';' || IsBlank(s[0])
  }

  /** What the decoder accepts after the digits: no whitespace before the semicolon. */
  predicate Tight(extension: string) {
    extension == "" || extension[0] == ';'
  }

  predicate IsSizeLine(size: string, extension: string, value: nat) {
    && size != "" && AllHex(size) && HexValue(size, 0) == value
    && IsExtension(extension) && NoCrlf(size + extension)
  }

  predicate IsChunk(c: Chunk) {
    0 < |c.data| < TWO_TO_64 && IsSizeLine(c.size, c.extension, |c.data|)
  }

  predicate IsBody(b: Body) {
    && (forall i :: 0 <= i < |b.chunks| ==> IsChunk(b.chunks[i]))
    && IsSizeLine(b.lastSize, b.lastExtension, 0)
    && forall i :: 0 <= i < |b.trailers| ==> b.trailers[i] != "" && NoCrlf(b.trailers[i])
  }

  predicate TightBody(b: Body) {
    && (forall i :: 0 <= i < |b.chunks| ==> Tight(b.chunks[i].extension))
    && Tight(b.lastExtension)
  }

  function EncodeTrailers(trailers: seq<string>): string {
    if trailers == [] then CRLF else trailers[0] + CRLF + EncodeTrailers(trailers[1..])
  }

  function Encode(b: Body): string
    decreases |b.chunks|
  {
    if b.chunks == [] then b.lastSize + b.lastExtension + CRLF + EncodeTrailers(b.trailers)
    else
      b.chunks[0].size + b.chunks[0].extension + CRLF + b.chunks[0].data + CRLF
      + Encode(b.(chunks := b.chunks[1..]))
  }

  function Payload(chunks: seq<Chunk>): string {
    if chunks == [] then "" else chunks[0].data + Payload(chunks[1..])
  }

  lemma ModuloStep(a: nat, d: nat)
    ensures ((a % TWO_TO_64) * 16 + d) % TWO_TO_64 == (a * 16 + d) % TWO_TO_64
  {
  }

  /** The announced size is the written number modulo 2^64; whitespace before the semicolon is refused. */
  lemma {:induction false} SizeLineValue(size: string, extension: string, acc: nat, any: bool)
    requires AllHex(size) && (any || size != "") && IsExtension(extension)
    ensures SizeOfLine(size + extension, acc % TWO_TO_64, any) ==
            if Tight(extension) then Some(HexValue(size, acc) % TWO_TO_64) else None
    decreases |size|
  {
    var line := size + extension;
    if size == "" {
      assert line == extension;
    } else {
      assert line[0] == size[0] && line[1..] == size[1..] + extension;
      ModuloStep(acc, HexDigit(size[0]));
      SizeLineValue(size[1..], extension, acc * 16 + HexDigit(size[0]), true);
    }
  }

  /** A line free of CRLF ends at the CRLF that follows it. */
  lemma LineEnds(line: string, rest: string)
    requires NoCrlf(line)
    ensures Find(line + CRLF + rest, CRLF, 0) == Some(|line|)
    ensures (line + CRLF + rest)[..|line|] == line
    ensures (line + CRLF + rest)[|line| + 2..] == rest
  {
    var s := line + CRLF + rest;
    forall j | 0 <= j < |line|
      ensures !MatchAt(s, CRLF, j)
    {
      if j + 2 <= |line| {
        assert s[j..j + 2] == line[j..j + 2];
        assert !MatchAt(line, CRLF, j);
      } else {
        assert s[j..j + 2][1] == '\r';
      }
    }
    assert s[|line|..|line| + 2] == CRLF;
    FindIs(s, CRLF, 0, |line|);
  }

  lemma {:induction false} TrailersDecode(trailers: seq<string>, remaining: nat, rest: string, out: string)
    requires forall i :: 0 <= i < |trailers| ==> trailers[i] != "" && NoCrlf(trailers[i])
    ensures Decode(Trailers, remaining, EncodeTrailers(trailers) + rest, out) ==
            Outcome(Trailers, remaining, rest, out, Done)
    decreases |trailers|
  {
    if trailers == [] {
      LineEnds("", rest);
      assert "" + CRLF + rest == EncodeTrailers(trailers) + rest;
    } else {
      var tail := EncodeTrailers(trailers[1..]) + rest;
      LineEnds(trailers[0], tail);
      assert trailers[0] + CRLF + tail == EncodeTrailers(trailers) + rest;
      TrailersDecode(trailers[1..], remaining, rest, out);
    }
  }

  lemma {:induction false} DecodeUnfold(phase: Phase, remaining: nat, buffer: string, out: string)
    requires phase == Data ==> remaining > 0
    ensures Decode(phase, remaining, buffer, out) ==
            match Advance(phase, remaining, buffer, out)
            case Stop(o) => o
            case Again(phase', remaining', buffer', out') => Decode(phase', remaining', buffer', out')
  {
  }

  lemma {:induction false} DataDecodes(data: string, rest: string, out: string)
    requires data != ""
    ensures Decode(Data, |data|, data + CRLF + rest, out) == Decode(Size, 0, rest, out + data)
  {
    hide Decode;
    var input := data + CRLF + rest;
    assert input[..|data|] == data;
    assert input[|data|..] == CRLF + rest;
    DecodeUnfold(Data, |data|, input, out);
    assert (CRLF + rest)[..2] == CRLF && (CRLF + rest)[2..] == rest;
    DecodeUnfold(DataCrlf, 0, CRLF + rest, out + data);
  }

  /** The line of a chunk is read, and its data or the trailers are next; or it is refused. */
  lemma {:induction false} SizeLineDecodes(size: string, extension: string, value: nat, rest: string, out: string)
    requires IsSizeLine(size, extension, value) && value < TWO_TO_64
    ensures var input := (size + extension) + CRLF + rest;
            if !Tight(extension) then Decode(Size, 0, input, out).status == Error
            else if value == 0 then Decode(Size, 0, input, out) == Decode(Trailers, 0, rest, out)
            else Decode(Size, 0, input, out) == Decode(Data, value, rest, out)
  {
    hide Decode;
    hide Find;
    hide SizeOfLine;
    LineEnds(size + extension, rest);
    SizeLineValue(size, extension, 0, false);
    DecodeUnfold(Size, 0, (size + extension) + CRLF + rest, out);
  }

  lemma {:induction false} ChunkDecodes(c: Chunk, rest: string, out: string)
    requires IsChunk(c)
    ensures var input := c.size + c.extension + CRLF + c.data + CRLF + rest;
            if Tight(c.extension) then Decode(Size, 0, input, out) == Decode(Size, 0, rest, out + c.data)
            else Decode(Size, 0, input, out).status == Error
  {
    hide Decode;
    hide IsSizeLine;
    var afterLine := c.data + CRLF + rest;
    SizeLineDecodes(c.size, c.extension, |c.data|, afterLine, out);
    assert c.size + c.extension + CRLF + c.data + CRLF + rest == (c.size + c.extension) + CRLF + afterLine;
    DataDecodes(c.data, rest, out);
  }

  /** Decoding inverts every chunked encoding, and leaves what follows it, exactly when no
      chunk extension is preceded by whitespace; otherwise it reports an error. */
  lemma {:induction false} DecodeInvertsEncode(b: Body, rest: string, out: string)
    requires IsBody(b)
    ensures if TightBody(b)
            then Decode(Size, 0, Encode(b) + rest, out) == Outcome(Trailers, 0, rest, out + Payload(b.chunks), Done)
            else Decode(Size, 0, Encode(b) + rest, out).status == Error
    decreases |b.chunks|
  {
    hide Decode;
    hide Encode;
    if b.chunks == [] {
      LastChunkDecodes(b, rest, out);
    } else {
      var c, b' := b.chunks[0], b.(chunks := b.chunks[1..]);
      var tail := Encode(b') + rest;
      EncodeCons(b, rest);
      ChunkDecodes(c, tail, out);
      assert TightBody(b) <==> Tight(c.extension) && TightBody(b');
      if Tight(c.extension) {
        DecodeInvertsEncode(b', rest, out + c.data);
        assert (out + c.data) + Payload(b'.chunks) == out + Payload(b.chunks);
      }
    }
  }

  /** Chunk data that are not followed by a CRLF are an error as soon as two more bytes are there. */
  lemma {:induction false} MissingCrlfRefused(size: string, extension: string, data: string, after: string, out: string)
    requires IsSizeLine(size, extension, |data|) && 0 < |data| < TWO_TO_64 && Tight(extension)
    requires |after| >= 2 && after[..2] != CRLF
    ensures Decode(Size, 0, (size + extension) + CRLF + (data + after), out).status == Error
  {
    hide Decode;
    SizeLineDecodes(size, extension, |data|, data + after, out);
    var input := data + after;
    assert input[..|data|] == data && input[|data|..] == after;
    DecodeUnfold(Data, |data|, input, out);
    DecodeUnfold(DataCrlf, 0, after, out + data);
  }

  /** A size line is refused exactly when a character before the first semicolon is no hexadecimal digit,
      or there is none. */
  lemma {:induction false} SizeLineRefusedIff(line: string, size: nat, any: bool, end: nat)
    requires end <= |line| && (end < |line| ==> line[end] == ';') && forall i :: 0 <= i < end ==> line[i] != ';'
    ensures SizeOfLine(line, size, any).None? <==>
            (end == 0 && !any) || exists i :: 0 <= i < end && HexDigit(line[i]) < 0
    decreases |line|
  {
    if end > 0 {
      assert forall i :: 0 <= i < end - 1 ==> line[1..][i] == line[i + 1];
      if HexDigit(line[0]) >= 0 {
        SizeLineRefusedIff(line[1..], (size * 16 + HexDigit(line[0])) % TWO_TO_64, true, end - 1);
        if exists i :: 0 <= i < end && HexDigit(line[i]) < 0 {
          var i :| 0 <= i < end && HexDigit(line[i]) < 0;
          assert HexDigit(line[1..][i - 1]) < 0;
        }
      }
    }
  }

  /** A refused size line ends the decoding with an error. */
  lemma {:induction false} BadSizeLineRefused(line: string, rest: string, out: string)
    requires NoCrlf(line) && SizeOfLine(line, 0, false).None?
    ensures Decode(Size, 0, line + CRLF + rest, out).status == Error
  {
    hide Decode;
    hide SizeOfLine;
    LineEnds(line, rest);
    DecodeUnfold(Size, 0, line + CRLF + rest, out);
  }

  /** The smallest refused body: a last chunk whose extension has a space before its semicolon. */
  lemma {:induction false} SpacedExtensionRefused()
    ensures Decode(Size, 0, "0 ;x\r\n\r\n", "").status == Error
  {
    hide Decode;
    var b := Body([], "0", " ;x", []);
    assert HexValue("0", 0) == HexValue("", 0) == 0;
    assert "0" + " ;x" == "0 ;x";
    forall i | 0 <= i < 4
      ensures !MatchAt("0 ;x", CRLF, i)
    {
      assert i + 2 <= 4 ==> "0 ;x"[i..i + 2][0] != '\r';
    }
    DecodeInvertsEncode(b, "", "");
    assert Encode(b) + "" == "0 ;x\r\n\r\n";
  }

  lemma {:induction false} EncodeCons(b: Body, rest: string)
    requires b.chunks != []
    ensures var c, b' := b.chunks[0], b.(chunks := b.chunks[1..]);
            Encode(b) + rest == c.size + c.extension + CRLF + c.data + CRLF + (Encode(b') + rest)
  {
  }

  lemma {:induction false} LastChunkDecodes(b: Body, rest: string, out: string)
    requires IsBody(b) && b.chunks == []
    ensures if Tight(b.lastExtension) then Decode(Size, 0, Encode(b) + rest, out) == Outcome(Trailers, 0, rest, out + "", Done)
            else Decode(Size, 0, Encode(b) + rest, out).status == Error
  {
    hide Decode;
    hide IsSizeLine;
    var tail := EncodeTrailers(b.trailers) + rest;
    assert Encode(b) + rest == (b.lastSize + b.lastExtension) + CRLF + tail;
    SizeLineDecodes(b.lastSize, b.lastExtension, 0, tail, out);
    TrailersDecode(b.trailers, 0, rest, out);
    assert out + "" == out;
  }

  /** The two results together: a chunked body received in any pieces. */
  lemma {:induction false} ChunkedBodyInPieces(b: Body, rest: string, pieces: seq<string>)
    requires IsBody(b) && Flatten(pieces) == Encode(b) + rest
    ensures TightBody(b) <==> FeedAll(START, pieces) == Outcome(Trailers, 0, rest, Payload(b.chunks), Done)
    ensures !TightBody(b) <==> FeedAll(START, pieces).status == Error
  {
    hide Decode;
    FreshDecoderSplitIndependent(pieces);
    DecodeInvertsEncode(b, rest, "");
    assert "" + Payload(b.chunks) == Payload(b.chunks);
  }

  /** 2^64 is read as 0 and taken for the last chunk: the bound on sizes is needed. */
  lemma SizeWrapsAt64Bits(zeros: string)
    requires |zeros| == 16 && forall i :: 0 <= i < 16 ==> zeros[i] == '0'
    ensures HexValue("1" + zeros, 0) == TWO_TO_64
    ensures SizeOfLine("1" + zeros, 0, false) == Some(0)
  {
    var s := "1" + zeros;
    assert s + "" == s && s[1..] == zeros;
    assert HexValue(s, 0) == HexValue(zeros, 1);
    HexFourZeros(zeros, 1);
    HexFourZeros(zeros[4..], 0x1_0000);
    HexFourZeros(zeros[4..][4..], 0x1_0000_0000);
    HexFourZeros(zeros[4..][4..][4..], 0x1_0000_0000_0000);
    SizeLineValue(s, "", 0, false);
  }

  lemma HexFourZeros(s: string, acc: nat)
    requires |s| >= 4 && forall i :: 0 <= i < |s| ==> s[i] == '0'
    ensures HexValue(s, acc) == HexValue(s[4..], acc * 0x1_0000)
  {
    assert s[1..][1..] == s[2..] && s[2..][1..] == s[3..] && s[3..][1..] == s[4..];
    assert HexValue(s, acc) == HexValue(s[2..], acc * 256);
    assert HexValue(s[2..], acc * 256) == HexValue(s[4..], acc * 256 * 256);
  }
}
