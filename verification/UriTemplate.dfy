/** URI templates: literal text and `{name}` variables, matched from left to right. */
module UriTemplate {
  import opened Wrappers
  import opened Text

  datatype Segment = Literal(text: string) | Variable(name: string)

  // ------------------------------------------------------------ tokenizing

  function Flushed(current: string, rest: seq<Segment>): seq<Segment> {
    if current == "" then rest else [Literal(current)] + rest
  }

  /** The segments of `template` after the literal text `current`. */
  function Tokenized(template: string, current: string): Option<seq<Segment>>
    decreases |template|
  {
    if template == "" then Some(Flushed(current, []))
    else if template[0] != '{' then Tokenized(template[1..], current + [template[0]])
    else
      match Find(template, "}", 0)
      case None => None
      case Some(close) =>
        if close == 1 then None
        else
          match Tokenized(template[close + 1..], "")
          case None => None
          case Some(rest) => Some(Flushed(current, [Variable(template[1..close])] + rest))
  }

  function Prepended(done: seq<Segment>, rest: Option<seq<Segment>>): Option<seq<Segment>> {
    if rest.Some? then Some(done + rest.value) else None
  }

  lemma FlushedBefore(current: string, segment: Segment, rest: seq<Segment>)
    ensures Flushed(current, [segment] + rest) == (Flushed(current, []) + [segment]) + rest
  {
  }

  lemma {:induction false} TokenizedUnfold(template: string, current: string)
    requires template != ""
    ensures var close := Find(template, "}", 0);
            Tokenized(template, current) ==
            if template[0] != '{' then Tokenized(template[1..], current + [template[0]])
            else if close.None? || close.value == 1 then None
            else Prepended(Flushed(current, []) + [Variable(template[1..close.value])], Tokenized(template[close.value + 1..], ""))
  {
    hide Find;
    hide Flushed;
    var close := Find(template, "}", 0);
    if template[0] == '{' && close.Some? && close.value != 1 {
      var rest := Tokenized(template[close.value + 1..], "");
      if rest.Some? {
        FlushedBefore(current, Variable(template[1..close.value]), rest.value);
      }
    }
  }

  lemma PrependedTwice(a: seq<Segment>, b: seq<Segment>, rest: Option<seq<Segment>>)
    ensures Prepended(a, Prepended(b, rest)) == Prepended(a + b, rest)
  {
    if rest.Some? {
      assert a + (b + rest.value) == (a + b) + rest.value;
    }
  }

  lemma PrependedNothing(rest: Option<seq<Segment>>)
    ensures Prepended([], rest) == rest
  {
    if rest.Some? {
      assert [] + rest.value == rest.value;
    }
  }

  method Tokenize(template: string) returns (result: Option<seq<Segment>>)
    ensures result == Tokenized(template, "")
  {
    hide Tokenized;
    var segments: seq<Segment> := [];
    var current := "";
    var i := 0;
    assert template[0..] == template;
    PrependedNothing(Tokenized(template, ""));
    while i < |template|
      invariant 0 <= i <= |template|
      invariant Tokenized(template, "") == Prepended(segments, Tokenized(template[i..], current))
    {
      var rest := template[i..];
      TokenizedUnfold(rest, current);
      if rest[0] == '{' {
        ghost var before := segments;
        ghost var flushed := Flushed(current, []);
        if current != "" {
          segments := segments + [Literal(current)];
        }
        assert segments == before + flushed;
        var close := Find(rest, "}", 0);
        if close.None? || close.value == 1 {
          return None;
        }
        var variable := Variable(rest[1..close.value]);
        assert rest[close.value + 1..] == template[i + close.value + 1..];
        PrependedTwice(before, flushed + [variable], Tokenized(template[i + close.value + 1..], ""));
        assert before + (flushed + [variable]) == segments + [variable];
        segments := segments + [variable];
        current := "";
        i := i + close.value + 1;
      } else {
        assert rest[1..] == template[i + 1..];
        current := current + [rest[0]];
        i := i + 1;
      }
    }
    ghost var before := segments;
    if current != "" {
      segments := segments + [Literal(current)];
    }
    assert segments == before + Flushed(current, []);
    assert template[i..] == "";
    assert Tokenized("", current) == Some(Flushed(current, [])) by {
      TokenizedEnd(current);
    }
    result := Some(segments);
  }

  lemma TokenizedEnd(current: string)
    ensures Tokenized("", current) == Some(Flushed(current, []))
  {
  }

  function Untokenized(segments: seq<Segment>): string {
    if segments == [] then ""
    else (match segments[0] case Literal(text) => text case Variable(name) => "{" + name + "}") + Untokenized(segments[1..])
  }

  predicate IsName(name: string) {
    name != "" && '}' !in name
  }

  /** Non-empty literals without an opening brace, no two in a row; non-empty names without a closing brace. */
  predicate IsTokenList(segments: seq<Segment>) {
    && (forall i :: 0 <= i < |segments| ==>
          match segments[i]
          case Literal(text) => text != "" && '{' !in text
          case Variable(name) => IsName(name))
    && forall i :: 0 <= i < |segments| - 1 && segments[i].Literal? ==> segments[i + 1].Variable?
  }

  /** The template writes out every opening brace as the start of a closed, non-empty variable. */
  predicate BracesClose(template: string)
    decreases |template|
  {
    if template == "" then true
    else if template[0] != '{' then BracesClose(template[1..])
    else
      var close := Find(template, "}", 0);
      close.Some? && close.value != 1 && BracesClose(template[close.value + 1..])
  }

  /** Tokenizing loses nothing: the segments write the template out again. It fails exactly on an
      unterminated or empty variable. */
  lemma {:induction false} TokenizedRoundTrip(template: string, current: string)
    requires '{' !in current
    ensures Tokenized(template, current).Some? <==> BracesClose(template)
    ensures Tokenized(template, current).Some? ==>
              var segments := Tokenized(template, current).value;
              IsTokenList(segments) && Untokenized(segments) == current + template
    decreases |template|
  {
    hide Tokenized;
    hide IsTokenList;
    if template == "" {
      TokenizedEnd(current);
      LiteralRoundTrip(current);
    } else if template[0] != '{' {
      TokenizedUnfold(template, current);
      TokenizedRoundTrip(template[1..], current + [template[0]]);
      assert current + [template[0]] + template[1..] == current + template;
    } else {
      TokenizedUnfold(template, current);
      var close := Find(template, "}", 0);
      if close.Some? && close.value != 1 {
        var name, after := template[1..close.value], template[close.value + 1..];
        VariableParts(template, close.value);
        TokenizedRoundTrip(after, "");
        if Tokenized(after, "").Some? {
          var rest := Tokenized(after, "").value;
          assert Untokenized(rest) == after;
          FlushedRoundTrip(current, name, rest);
          assert current + ("{" + name + "}" + after) == current + template;
        }
      }
    }
  }

  lemma LiteralRoundTrip(current: string)
    requires '{' !in current
    ensures IsTokenList(Flushed(current, [])) && Untokenized(Flushed(current, [])) == current + ""
  {
  }

  lemma {:induction false} VariableParts(template: string, close: nat)
    requires template != "" && template[0] == '{' && Find(template, "}", 0) == Some(close) && close != 1
    ensures IsName(template[1..close]) && template == "{" + template[1..close] + "}" + template[close + 1..]
  {
    hide Find;
    var name := template[1..close];
    forall i | 0 <= i < |name|
      ensures name[i] != '}'
    {
      assert !MatchAt(template, "}", i + 1);
      assert template[i + 1..i + 2][0] == name[i];
    }
    assert template[close..close + 1] == "}" && template[..1] == "{";
    assert template == template[..1] + template[1..close] + template[close..close + 1] + template[close + 1..];
  }

  lemma FlushedRoundTrip(current: string, name: string, rest: seq<Segment>)
    requires '{' !in current && IsName(name) && IsTokenList(rest)
    ensures var segments := Flushed(current, [Variable(name)] + rest);
            && segments == Flushed(current, []) + [Variable(name)] + rest
            && IsTokenList(segments) && Untokenized(segments) == current + ("{" + name + "}" + Untokenized(rest))
  {
    var inner := [Variable(name)] + rest;
    assert inner[1..] == rest;
    if current != "" {
      assert ([Literal(current)] + inner)[1..] == inner;
    }
  }

  // ------------------------------------------------------------ matching

  type Variables = map<string, string>

  /** Matching `segments` against the text from `pos`. */
  function Matched(segments: seq<Segment>, uri: string, pos: nat, variables: Variables): Option<Variables>
    requires pos <= |uri|
    decreases |segments|
  {
    if segments == [] then if pos == |uri| then Some(variables) else None
    else
      match segments[0]
      case Literal(text) =>
        if MatchAt(uri, text, pos) then Matched(segments[1..], uri, pos + |text|, variables) else None
      case Variable(name) =>
        match ValueEnd(segments, uri, pos)
        case None => None
        case Some(end) => Matched(segments[1..], uri, end, variables[name := uri[pos..end]])
  }

  /** Where the value of the leading variable ends: at the next literal, or at the end when last;
      nowhere when another variable follows, the literal is missing, or the value would be empty. */
  function ValueEnd(segments: seq<Segment>, uri: string, pos: nat): (end: Option<nat>)
    requires segments != [] && pos <= |uri|
    ensures end.Some? ==> pos < end.value <= |uri|
  {
    if |segments| == 1 then if pos == |uri| then None else Some(|uri|)
    else if segments[1].Variable? then None
    else
      match Find(uri, segments[1].text, pos)
      case None => None
      case Some(end) => if end == pos then None else Some(end)
  }

  lemma {:induction false} MatchedUnfold(segments: seq<Segment>, uri: string, pos: nat, variables: Variables)
    requires pos <= |uri| && segments != []
    ensures Matched(segments, uri, pos, variables) ==
            match segments[0]
            case Literal(text) => if MatchAt(uri, text, pos) then Matched(segments[1..], uri, pos + |text|, variables) else None
            case Variable(name) =>
              var end := ValueEnd(segments, uri, pos);
              if end.None? then None else Matched(segments[1..], uri, end.value, variables[name := uri[pos..end.value]])
  {
  }

  method MatchUriTemplate(template: string, uri: string) returns (result: Option<Variables>)
    ensures result == match Tokenized(template, "") case None => None case Some(segments) => Matched(segments, uri, 0, map[])
  {
    hide Tokenized;
    var tokens := Tokenize(template);
    if tokens.None? {
      return None;
    }
    result := MatchSegments(tokens.value, uri);
  }

  /** The loop over the segments. */
  method MatchSegments(segments: seq<Segment>, uri: string) returns (result: Option<Variables>)
    ensures result == Matched(segments, uri, 0, map[])
  {
    hide Matched;
    hide Find;
    var variables: Variables := map[];
    var pos := 0;
    assert segments[0..] == segments;
    for s := 0 to |segments|
      invariant 0 <= pos <= |uri|
      invariant Matched(segments, uri, 0, map[]) == Matched(segments[s..], uri, pos, variables)
    {
      var segment := segments[s];
      assert segments[s..][1..] == segments[s + 1..];
      MatchedUnfold(segments[s..], uri, pos, variables);
      if segment.Literal? {
        if !MatchAt(uri, segment.text, pos) {
          return None;
        }
        pos := pos + |segment.text|;
        continue;
      }
      var valueEnd := |uri|;
      if s + 1 < |segments| {
        var next := segments[s + 1];
        if next.Variable? {
          return None;
        }
        var found := Find(uri, next.text, pos);
        if found.None? {
          return None;
        }
        valueEnd := found.value;
      }
      if valueEnd == pos {
        return None;
      }
      variables := variables[segment.name := uri[pos..valueEnd]];
      pos := valueEnd;
    }
    result := if pos != |uri| then None else Some(variables);
    MatchedEnd(uri, pos, variables);
    assert segments[|segments|..] == [];
  }

  lemma MatchedEnd(uri: string, pos: nat, variables: Variables)
    requires pos <= |uri|
    ensures Matched([], uri, pos, variables) == if pos == |uri| then Some(variables) else None
  {
  }

  // ------------------------------------------------------------ the leftmost decomposition

  /** The text from `pos` is the segments in order, variable `i` standing for `values[i]`: no value
      is empty, and one that a literal follows stops at the first occurrence of that literal. */
  ghost predicate Decomposes(segments: seq<Segment>, values: seq<string>, uri: string, pos: nat)
    decreases |segments|
  {
    if segments == [] then values == [] && pos == |uri|
    else
      match segments[0]
      case Literal(text) => MatchAt(uri, text, pos) && Decomposes(segments[1..], values, uri, pos + |text|)
      case Variable(_) =>
        && values != [] && values[0] != "" && MatchAt(uri, values[0], pos)
        && (|segments| > 1 ==> segments[1].Literal? && EndsAtFirst(uri, segments[1].text, pos, pos + |values[0]|))
        && Decomposes(segments[1..], values[1..], uri, pos + |values[0]|)
  }

  ghost predicate EndsAtFirst(uri: string, literal: string, pos: nat, end: nat) {
    forall j :: pos <= j < end ==> !MatchAt(uri, literal, j)
  }

  ghost predicate HasDecomposition(segments: seq<Segment>, uri: string) {
    exists values :: Decomposes(segments, values, uri, 0)
  }

  /** The variables bound, left to right. */
  function Bound(segments: seq<Segment>, values: seq<string>, variables: Variables): Variables
    decreases |segments|
  {
    if segments == [] || values == [] then variables
    else if segments[0].Literal? then Bound(segments[1..], values, variables)
    else Bound(segments[1..], values[1..], variables[segments[0].name := values[0]])
  }

  /** A match is the leftmost decomposition and binds its values. */
  lemma {:induction false} MatchDecomposes(segments: seq<Segment>, uri: string, pos: nat, variables: Variables)
    returns (values: seq<string>)
    requires pos <= |uri| && Matched(segments, uri, pos, variables).Some?
    ensures Decomposes(segments, values, uri, pos)
    ensures Matched(segments, uri, pos, variables) == Some(Bound(segments, values, variables))
    decreases |segments|
  {
    if segments == [] {
      values := [];
    } else if segments[0].Literal? {
      values := MatchDecomposes(segments[1..], uri, pos + |segments[0].text|, variables);
      BoundEmpty(segments, variables);
    } else {
      var end := ValueEnd(segments, uri, pos).value;
      var value := uri[pos..end];
      var rest := MatchDecomposes(segments[1..], uri, end, variables[segments[0].name := value]);
      values := [value] + rest;
      assert values[1..] == rest;
    }
  }

  lemma {:induction false} BoundEmpty(segments: seq<Segment>, variables: Variables)
    ensures Bound(segments, [], variables) == variables
  {
  }

  /** Any leftmost decomposition is the one the matcher finds. */
  lemma {:induction false} DecompositionMatches(segments: seq<Segment>, values: seq<string>, uri: string, pos: nat, variables: Variables)
    requires pos <= |uri| && Decomposes(segments, values, uri, pos)
    ensures Matched(segments, uri, pos, variables) == Some(Bound(segments, values, variables))
    decreases |segments|
  {
    if segments == [] {
    } else if segments[0].Literal? {
      DecompositionMatches(segments[1..], values, uri, pos + |segments[0].text|, variables);
      BoundEmpty(segments, variables);
      BoundEmpty(segments[1..], variables);
    } else {
      var end := pos + |values[0]|;
      DecompositionMatches(segments[1..], values[1..], uri, end, variables[segments[0].name := values[0]]);
      if |segments| > 1 {
        assert MatchAt(uri, segments[1].text, end);
        FindIs(uri, segments[1].text, pos, end);
      } else {
        assert segments[1..] == [];
      }
    }
  }

  /** A template matches exactly when the leftmost decomposition exists, and then binds its values. */
  lemma MatchesIffDecomposes(segments: seq<Segment>, uri: string)
    ensures Matched(segments, uri, 0, map[]).Some? <==> HasDecomposition(segments, uri)
    ensures forall values :: Decomposes(segments, values, uri, 0) ==>
              Matched(segments, uri, 0, map[]) == Some(Bound(segments, values, map[]))
  {
    if Matched(segments, uri, 0, map[]).Some? {
      var values := MatchDecomposes(segments, uri, 0, map[]);
      assert HasDecomposition(segments, uri);
    }
    forall values | Decomposes(segments, values, uri, 0)
      ensures Matched(segments, uri, 0, map[]) == Some(Bound(segments, values, map[]))
    {
      DecompositionMatches(segments, values, uri, 0, map[]);
    }
  }

  // ------------------------------------------------------------ substituting back

  function Names(segments: seq<Segment>): seq<string> {
    if segments == [] then []
    else if segments[0].Literal? then Names(segments[1..])
    else [segments[0].name] + Names(segments[1..])
  }

  predicate Distinct(names: seq<string>) {
    forall i, j :: 0 <= i < j < |names| ==> names[i] != names[j]
  }

  function Substituted(segments: seq<Segment>, variables: Variables): string {
    if segments == [] then ""
    else
      (match segments[0]
       case Literal(text) => text
       case Variable(name) => if name in variables then variables[name] else "")
      + Substituted(segments[1..], variables)
  }

  lemma {:induction false} BoundKeepsOthers(segments: seq<Segment>, values: seq<string>, variables: Variables, name: string)
    requires name !in Names(segments)
    ensures var bound := Bound(segments, values, variables);
            (name in bound <==> name in variables) && (name in variables ==> bound[name] == variables[name])
    decreases |segments|
  {
    if segments != [] && values != [] {
      if segments[0].Literal? {
        BoundKeepsOthers(segments[1..], values, variables, name);
      } else {
        assert segments[0].name == Names(segments)[0];
        forall n | n in Names(segments[1..])
          ensures n in Names(segments)
        {
        }
        BoundKeepsOthers(segments[1..], values[1..], variables[segments[0].name := values[0]], name);
      }
    }
  }

  /** With distinct names, putting the captured values back gives the text, and no value is empty. */
  lemma {:induction false} SubstitutionRestores(segments: seq<Segment>, values: seq<string>, uri: string, pos: nat, variables: Variables)
    requires pos <= |uri| && Decomposes(segments, values, uri, pos) && Distinct(Names(segments))
    ensures var bound := Bound(segments, values, variables);
            && Substituted(segments, bound) == uri[pos..]
            && forall name :: name in Names(segments) ==> name in bound && bound[name] != ""
    decreases |segments|
  {
    hide Find;
    hide EndsAtFirst;
    hide Distinct;
    if segments != [] {
      var bound := Bound(segments, values, variables);
      if segments[0].Literal? {
        var text := segments[0].text;
        SubstitutionRestores(segments[1..], values, uri, pos + |text|, variables);
        BoundEmpty(segments, variables);
        BoundEmpty(segments[1..], variables);
        PartAndRest(uri, pos, text);
      } else {
        var name, value := segments[0].name, values[0];
        DistinctTail(name, Names(segments[1..]));
        SubstitutionRestores(segments[1..], values[1..], uri, pos + |value|, variables[name := value]);
        BoundKeepsOthers(segments[1..], values[1..], variables[name := value], name);
        assert bound[name] == value;
        PartAndRest(uri, pos, value);
      }
      hide MatchAt;
    }
  }

  lemma DistinctTail(name: string, names: seq<string>)
    requires Distinct([name] + names)
    ensures name !in names && Distinct(names)
  {
    var all := [name] + names;
    forall i | 0 <= i < |names|
      ensures names[i] != name
    {
      assert all[0] != all[i + 1];
    }
    forall i, j | 0 <= i < j < |names|
      ensures names[i] != names[j]
    {
      assert all[i + 1] != all[j + 1];
    }
  }

  /** Whatever a template with distinct variable names captures, substituting it gives the URI back. */
  lemma MatchThenSubstitute(template: string, uri: string)
    requires Tokenized(template, "").Some?
    requires var segments := Tokenized(template, "").value;
             Distinct(Names(segments)) && Matched(segments, uri, 0, map[]).Some?
    ensures var segments := Tokenized(template, "").value;
            var variables := Matched(segments, uri, 0, map[]).value;
            && Substituted(segments, variables) == uri
            && forall name :: name in Names(segments) ==> name in variables && variables[name] != ""
  {
    var segments := Tokenized(template, "").value;
    var values := MatchDecomposes(segments, uri, 0, map[]);
    SubstitutionRestores(segments, values, uri, 0, map[]);
  }

  // ------------------------------------------------------------ which templates restore every URI

  predicate HasAdjacent(segments: seq<Segment>) {
    exists i :: 0 <= i < |segments| - 1 && segments[i].Variable? && segments[i + 1].Variable?
  }

  /** A template with two adjacent variables matches nothing. */
  lemma {:induction false} AdjacentNeverMatch(segments: seq<Segment>, uri: string, pos: nat, variables: Variables, i: nat)
    requires pos <= |uri| && i < |segments| - 1 && segments[i].Variable? && segments[i + 1].Variable?
    ensures Matched(segments, uri, pos, variables).None?
    decreases |segments|
  {
    hide Find;
    if i > 0 {
      if segments[0].Literal? {
        if MatchAt(uri, segments[0].text, pos) {
          AdjacentNeverMatch(segments[1..], uri, pos + |segments[0].text|, variables, i - 1);
        }
      } else if ValueEnd(segments, uri, pos).Some? {
        var end := ValueEnd(segments, uri, pos).value;
        AdjacentNeverMatch(segments[1..], uri, end, variables[segments[0].name := uri[pos..end]], i - 1);
      }
    }
  }

  // A text that no literal of a template contains, and a longer one.
  const SHORT := "{"
  const LONG := "{{"

  /** Every variable is given the short text; only the last occurrence of `name` gets the long one. */
  function TrickValue(segments: seq<Segment>, name: string): string
    requires segments != [] && segments[0].Variable?
  {
    if segments[0].name == name && name !in Names(segments[1..]) then LONG else SHORT
  }

  function TrickValues(segments: seq<Segment>, name: string): seq<string> {
    if segments == [] then []
    else if segments[0].Literal? then TrickValues(segments[1..], name)
    else [TrickValue(segments, name)] + TrickValues(segments[1..], name)
  }

  function TrickUri(segments: seq<Segment>, name: string): string {
    if segments == [] then ""
    else (if segments[0].Literal? then segments[0].text else TrickValue(segments, name)) + TrickUri(segments[1..], name)
  }

  lemma BracesHideNoLiteral(uri: string, literal: string, value: string, pos: nat)
    requires literal != "" && '{' !in literal && (value == SHORT || value == LONG) && MatchAt(uri, value, pos)
    ensures EndsAtFirst(uri, literal, pos, pos + |value|)
  {
    forall j | pos <= j < pos + |value|
      ensures !MatchAt(uri, literal, j)
    {
      assert uri[pos..pos + |value|][j - pos] == '{';
      assert j + |literal| <= |uri| ==> uri[j..j + |literal|][0] == uri[j];
    }
  }

  lemma TokenListTail(segments: seq<Segment>)
    requires IsTokenList(segments) && segments != []
    ensures IsTokenList(segments[1..])
    ensures !HasAdjacent(segments) ==> !HasAdjacent(segments[1..])
  {
    if HasAdjacent(segments[1..]) {
      var i :| 0 <= i < |segments| - 2 && segments[1..][i].Variable? && segments[1..][i + 1].Variable?;
      assert segments[i + 1].Variable? && segments[i + 1 + 1].Variable?;
    }
  }

  /** One more segment in front of a decomposition. */
  lemma {:induction false} DecomposesFrom(segments: seq<Segment>, values: seq<string>, uri: string, pos: nat, part: string)
    requires segments != [] && MatchAt(uri, part, pos)
    requires segments[0].Literal? ==> part == segments[0].text && Decomposes(segments[1..], values, uri, pos + |part|)
    requires segments[0].Variable? ==>
               && part != "" && values != [] && values[0] == part
               && (|segments| > 1 ==> segments[1].Literal? && EndsAtFirst(uri, segments[1].text, pos, pos + |part|))
               && Decomposes(segments[1..], values[1..], uri, pos + |part|)
    ensures Decomposes(segments, values, uri, pos)
  {
  }

  lemma {:induction false} TrickDecomposes(segments: seq<Segment>, name: string, uri: string, pos: nat)
    requires IsTokenList(segments) && !HasAdjacent(segments)
    requires pos <= |uri| && uri[pos..] == TrickUri(segments, name)
    ensures Decomposes(segments, TrickValues(segments, name), uri, pos)
    decreases |segments|
  {
    hide IsTokenList;
    hide HasAdjacent;
    hide EndsAtFirst;
    hide MatchAt;
    if segments != [] {
      hide Decomposes;
      TokenListTail(segments);
      TokenListHead(segments);
      var part := if segments[0].Literal? then segments[0].text else TrickValue(segments, name);
      PartInPlace(uri, pos, part, TrickUri(segments[1..], name));
      TrickDecomposes(segments[1..], name, uri, pos + |part|);
      var values := TrickValues(segments, name);
      assert segments[0].Variable? ==> values[0] == part && values[1..] == TrickValues(segments[1..], name);
      if segments[0].Variable? && |segments| > 1 {
        BracesHideNoLiteral(uri, segments[1].text, part, pos);
      }
      DecomposesFrom(segments, values, uri, pos, part);
    }
  }

  lemma PartInPlace(uri: string, pos: nat, part: string, rest: string)
    requires pos <= |uri| && uri[pos..] == part + rest
    ensures MatchAt(uri, part, pos) && uri[pos + |part|..] == rest
  {
    assert uri[pos..pos + |part|] == uri[pos..][..|part|];
    assert uri[pos + |part|..] == uri[pos..][|part|..];
  }

  lemma PartAndRest(uri: string, pos: nat, part: string)
    requires MatchAt(uri, part, pos)
    ensures uri[pos..] == part + uri[pos + |part|..]
  {
  }

  lemma TokenListHead(segments: seq<Segment>)
    requires IsTokenList(segments) && !HasAdjacent(segments) && segments != []
    ensures segments[0].Variable? && |segments| > 1 ==>
              segments[1].Literal? && segments[1].text != "" && '{' !in segments[1].text
  {
    if segments[0].Variable? && |segments| > 1 {
      assert segments[0 + 1] == segments[1];
    }
  }

  function Occurrences(names: seq<string>, name: string): nat {
    if names == [] then 0 else Occurrences(names[1..], name) + if names[0] == name then 1 else 0
  }

  /** Each name is bound to what its last occurrence was given. */
  lemma {:induction false} TrickBound(segments: seq<Segment>, name: string, variables: Variables, n: string)
    requires n in Names(segments)
    ensures var bound := Bound(segments, TrickValues(segments, name), variables);
            n in bound && bound[n] == if n == name then LONG else SHORT
    decreases |segments|
  {
    if segments[0].Literal? {
      if TrickValues(segments, name) == [] {
        NoValuesNoNames(segments, name);
      } else {
        TrickBound(segments[1..], name, variables, n);
      }
    } else {
      var values := TrickValues(segments, name);
      assert values[1..] == TrickValues(segments[1..], name);
      assert Names(segments) == [segments[0].name] + Names(segments[1..]);
      var v' := variables[segments[0].name := values[0]];
      if n in Names(segments[1..]) {
        TrickBound(segments[1..], name, v', n);
      } else {
        BoundKeepsOthers(segments[1..], values[1..], v', n);
      }
    }
  }

  lemma {:induction false} NoValuesNoNames(segments: seq<Segment>, name: string)
    ensures |TrickValues(segments, name)| == |Names(segments)|
    decreases |segments|
  {
    if segments != [] {
      NoValuesNoNames(segments[1..], name);
    }
  }

  /** Putting the values back makes the text longer, by one for each earlier occurrence of `name`. */
  lemma {:induction false} TrickGrows(segments: seq<Segment>, name: string, variables: Variables)
    requires forall n :: n in Names(segments) ==> n in variables && variables[n] == if n == name then LONG else SHORT
    ensures var count := Occurrences(Names(segments), name);
            |Substituted(segments, variables)| == |TrickUri(segments, name)| + if count == 0 then 0 else count - 1
    decreases |segments|
  {
    if segments != [] {
      if segments[0].Variable? {
        assert Names(segments)[0] == segments[0].name && Names(segments)[1..] == Names(segments[1..]);
        assert forall n :: n in Names(segments[1..]) ==> n in Names(segments);
        OccursIffIn(Names(segments[1..]), name);
      }
      TrickGrows(segments[1..], name, variables);
    }
  }

  lemma {:induction false} OccursIffIn(names: seq<string>, name: string)
    ensures Occurrences(names, name) > 0 <==> name in names
    decreases |names|
  {
    if names != [] {
      assert names == [names[0]] + names[1..];
      OccursIffIn(names[1..], name);
    }
  }

  lemma {:induction false} RepeatedOccursTwice(names: seq<string>, i: nat, j: nat)
    requires i < j < |names| && names[i] == names[j]
    ensures Occurrences(names, names[i]) >= 2
    decreases |names|
  {
    if i == 0 {
      assert names[1..][j - 1] == names[j];
      OccursIffIn(names[1..], names[j]);
    } else {
      assert names[1..][i - 1] == names[i] && names[1..][j - 1] == names[j];
      RepeatedOccursTwice(names[1..], i - 1, j - 1);
    }
  }

  /** A template that repeats a name and can match at all matches a text that it does not restore. */
  lemma {:induction false} RepeatedNameLosesText(segments: seq<Segment>) returns (uri: string)
    requires IsTokenList(segments) && !HasAdjacent(segments) && !Distinct(Names(segments))
    ensures Matched(segments, uri, 0, map[]).Some?
    ensures Substituted(segments, Matched(segments, uri, 0, map[]).value) != uri
  {
    var names := Names(segments);
    var i, j :| 0 <= i < j < |names| && names[i] == names[j];
    var name, values := names[i], TrickValues(segments, names[i]);
    uri := TrickUri(segments, name);
    assert uri[0..] == uri;
    TrickDecomposes(segments, name, uri, 0);
    DecompositionMatches(segments, values, uri, 0, map[]);
    var bound := Bound(segments, values, map[]);
    forall n | n in names
      ensures n in bound && bound[n] == if n == name then LONG else SHORT
    {
      TrickBound(segments, name, map[], n);
    }
    TrickGrows(segments, name, bound);
    RepeatedOccursTwice(names, i, j);
  }

  /** Every URI a template matches is given back by substituting its captured values. */
  ghost predicate RestoresEvery(segments: seq<Segment>) {
    forall uri :: Matched(segments, uri, 0, map[]).Some? ==>
      Substituted(segments, Matched(segments, uri, 0, map[]).value) == uri
  }

  /** A template restores every URI it matches exactly when its variable names are distinct, or two of
      its variables are adjacent and it matches nothing. */
  lemma {:induction false} RestoresIff(template: string)
    requires Tokenized(template, "").Some?
    ensures var segments := Tokenized(template, "").value;
            RestoresEvery(segments) <==> Distinct(Names(segments)) || HasAdjacent(segments)
  {
    hide Tokenized;
    TokenizedRoundTrip(template, "");
    var segments := Tokenized(template, "").value;
    if HasAdjacent(segments) {
      var i :| 0 <= i < |segments| - 1 && segments[i].Variable? && segments[i + 1].Variable?;
      forall uri
        ensures Matched(segments, uri, 0, map[]).None?
      {
        AdjacentNeverMatch(segments, uri, 0, map[], i);
      }
    } else if Distinct(Names(segments)) {
      forall uri | Matched(segments, uri, 0, map[]).Some?
        ensures Substituted(segments, Matched(segments, uri, 0, map[]).value) == uri
      {
        MatchThenSubstitute(template, uri);
      }
    } else {
      var uri := RepeatedNameLosesText(segments);
    }
  }

  /** A repeated name keeps only its last value: with `{a}/{a}` the URI `x/y` is lost. */
  lemma {:induction false} RepeatedNameExample()
    ensures var segments := [Variable("a"), Literal("/"), Variable("a")];
            && Matched(segments, "x/y", 0, map[]) == Some(map["a" := "y"])
            && Substituted(segments, map["a" := "y"]) == "y/y"
  {
    hide Find;
    hide Matched;
    hide MatchAt;
    var segments, uri, m := [Variable("a"), Literal("/"), Variable("a")], "x/y", map["a" := "y"];
    assert segments[1..] == [Literal("/"), Variable("a")] && segments[1..][1..] == [Variable("a")] && segments[1..][1..][1..] == [];
    ExampleParts();
    assert ["x", "y"][1..] == ["y"] && ["y"][1..] == [];
    assert Decomposes([], [], uri, 3);
    DecomposesFrom([Variable("a")], ["y"], uri, 2, "y");
    DecomposesFrom(segments[1..], ["y"], uri, 1, "/");
    DecomposesFrom(segments, ["x", "y"], uri, 0, "x");
    DecompositionMatches(segments, ["x", "y"], uri, 0, map[]);
    assert Bound([Variable("a")], ["y"], map["a" := "x"]) == Bound([], [], map["a" := "x"]["a" := "y"]);
    assert Bound(segments[1..], ["y"], map["a" := "x"]) == m;
    assert Substituted(segments[1..][1..], m) == "y";
    assert Substituted(segments[1..], m) == "/y";
  }

  lemma ExampleParts()
    ensures MatchAt("x/y", "x", 0) && MatchAt("x/y", "/", 1) && MatchAt("x/y", "y", 2)
    ensures EndsAtFirst("x/y", "/", 0, 1)
  {
    var uri := "x/y";
    assert uri[0..1] == [uri[0]] && uri[1..2] == [uri[1]] && uri[2..3] == [uri[2]];
  }
}
