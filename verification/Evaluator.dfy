/** The calculator's recursive-descent evaluator, over any arithmetic. */
module Evaluation {
  import opened Wrappers

  /** The number operations the evaluator uses; `number` reads a literal and may refuse it. */
  datatype Arithmetic<!V> = Arithmetic(
    number: string -> Option<V>,
    add: (V, V) -> V, subtract: (V, V) -> V, multiply: (V, V) -> V, divide: (V, V) -> V,
    negate: V -> V, isZero: V -> bool)

  datatype Failure = UnexpectedCharacter | MissingParenthesis | ExpectedNumber | BadNumber | DivisionByZero

  datatype Read<+V> = Read(value: V, pos: nat)

  // ------------------------------------------------------------ the evaluator as functions of the position

  function SkipSpaces(text: string, pos: nat): (r: nat)
    requires pos <= |text|
    ensures pos <= r <= |text| && (r < |text| ==> text[r] != ' ')
    ensures forall i :: pos <= i < r ==> text[i] == ' '
    decreases |text| - pos
  {
    if pos < |text| && text[pos] == ' ' then SkipSpaces(text, pos + 1) else pos
  }

  predicate IsNumberChar(c: char) {
    '0' <= c <= '9' || c == '.'
  }

  /** A literal is written with digits and points. */
  lemma NumberChars(c: char)
    ensures IsNumberChar(c) <==> c in "0123456789."
  {
    var chars := "0123456789.";
    if '0' <= c <= '9' {
      assert chars[c as int - '0' as int] == c;
    }
    assert chars[10] == '.';
  }

  function NumberEnd(text: string, pos: nat): (r: nat)
    requires pos <= |text|
    ensures pos <= r <= |text| && (r < |text| ==> !IsNumberChar(text[r]))
    ensures forall i :: pos <= i < r ==> IsNumberChar(text[i])
    decreases |text| - pos
  {
    if pos < |text| && IsNumberChar(text[pos]) then NumberEnd(text, pos + 1) else pos
  }

  predicate Sees(text: string, pos: nat, c: char) {
    pos < |text| && text[pos] == c
  }

  function NumberAt<V>(a: Arithmetic<V>, text: string, pos: nat): (r: Result<Read<V>, Failure>)
    requires pos <= |text|
    ensures r.Ok? ==> pos < r.value.pos <= |text|
  {
    var start := SkipSpaces(text, pos);
    var end := NumberEnd(text, start);
    if end == start then Err(ExpectedNumber)
    else
      match a.number(text[start..end])
      case None => Err(BadNumber)
      case Some(v) => Ok(Read(v, end))
  }

  function FactorAt<V>(a: Arithmetic<V>, text: string, pos: nat): (r: Result<Read<V>, Failure>)
    requires pos <= |text|
    ensures r.Ok? ==> pos < r.value.pos <= |text|
    decreases |text| - pos, 0
  {
    var p := SkipSpaces(text, pos);
    if Sees(text, p, '(') then
      match ExpressionAt(a, text, p + 1)
      case Err(e) => Err(e)
      case Ok(read) =>
        var q := SkipSpaces(text, read.pos);
        if Sees(text, q, ')') then Ok(Read(read.value, q + 1)) else Err(MissingParenthesis)
    else if Sees(text, p, '-') then
      match FactorAt(a, text, p + 1)
      case Err(e) => Err(e)
      case Ok(read) => Ok(Read(a.negate(read.value), read.pos))
    else NumberAt(a, text, p)
  }

  function TermLoop<V>(a: Arithmetic<V>, text: string, pos: nat, value: V): (r: Result<Read<V>, Failure>)
    requires pos <= |text|
    ensures r.Ok? ==> pos <= r.value.pos <= |text|
    decreases |text| - pos, 1
  {
    var p := SkipSpaces(text, pos);
    if Sees(text, p, '*') then
      match FactorAt(a, text, p + 1)
      case Err(e) => Err(e)
      case Ok(read) => TermLoop(a, text, read.pos, a.multiply(value, read.value))
    else if Sees(text, p, '/') then
      match FactorAt(a, text, p + 1)
      case Err(e) => Err(e)
      case Ok(read) =>
        if a.isZero(read.value) then Err(DivisionByZero)
        else TermLoop(a, text, read.pos, a.divide(value, read.value))
    else Ok(Read(value, p))
  }

  function TermAt<V>(a: Arithmetic<V>, text: string, pos: nat): (r: Result<Read<V>, Failure>)
    requires pos <= |text|
    ensures r.Ok? ==> pos < r.value.pos <= |text|
    decreases |text| - pos, 2
  {
    match FactorAt(a, text, pos)
    case Err(e) => Err(e)
    case Ok(read) => TermLoop(a, text, read.pos, read.value)
  }

  function ExpressionLoop<V>(a: Arithmetic<V>, text: string, pos: nat, value: V): (r: Result<Read<V>, Failure>)
    requires pos <= |text|
    ensures r.Ok? ==> pos <= r.value.pos <= |text|
    decreases |text| - pos, 3
  {
    var p := SkipSpaces(text, pos);
    if Sees(text, p, '+') then
      match TermAt(a, text, p + 1)
      case Err(e) => Err(e)
      case Ok(read) => ExpressionLoop(a, text, read.pos, a.add(value, read.value))
    else if Sees(text, p, '-') then
      match TermAt(a, text, p + 1)
      case Err(e) => Err(e)
      case Ok(read) => ExpressionLoop(a, text, read.pos, a.subtract(value, read.value))
    else Ok(Read(value, p))
  }

  function ExpressionAt<V>(a: Arithmetic<V>, text: string, pos: nat): (r: Result<Read<V>, Failure>)
    requires pos <= |text|
    ensures r.Ok? ==> pos < r.value.pos <= |text|
    decreases |text| - pos, 4
  {
    match TermAt(a, text, pos)
    case Err(e) => Err(e)
    case Ok(read) => ExpressionLoop(a, text, read.pos, read.value)
  }

  function Evaluated<V>(a: Arithmetic<V>, text: string): Result<V, Failure> {
    match ExpressionAt(a, text, 0)
    case Err(e) => Err(e)
    case Ok(read) => if SkipSpaces(text, read.pos) == |text| then Ok(read.value) else Err(UnexpectedCharacter)
  }

  /** One turn of each loop. */
  lemma {:induction false} TermLoopUnfold<V>(a: Arithmetic<V>, text: string, pos: nat, value: V)
    requires pos <= |text|
    ensures var p := SkipSpaces(text, pos);
            TermLoop(a, text, pos, value) ==
            if !Sees(text, p, '*') && !Sees(text, p, '/') then Ok(Read(value, p))
            else match FactorAt(a, text, p + 1)
                 case Err(e) => Err(e)
                 case Ok(read) =>
                   if Sees(text, p, '*') then TermLoop(a, text, read.pos, a.multiply(value, read.value))
                   else if a.isZero(read.value) then Err(DivisionByZero)
                   else TermLoop(a, text, read.pos, a.divide(value, read.value))
  {
  }

  lemma {:induction false} ExpressionLoopUnfold<V>(a: Arithmetic<V>, text: string, pos: nat, value: V)
    requires pos <= |text|
    ensures var p := SkipSpaces(text, pos);
            ExpressionLoop(a, text, pos, value) ==
            if !Sees(text, p, '+') && !Sees(text, p, '-') then Ok(Read(value, p))
            else match TermAt(a, text, p + 1)
                 case Err(e) => Err(e)
                 case Ok(read) =>
                   ExpressionLoop(a, text, read.pos,
                                  if Sees(text, p, '+') then a.add(value, read.value) else a.subtract(value, read.value))
  {
  }

  /** Where no operand begins, a number is missed; a literal that is refused is a bad number. */
  lemma {:induction false} OperandMissed<V>(a: Arithmetic<V>, text: string, pos: nat)
    requires pos <= |text|
    ensures var p := SkipSpaces(text, pos);
            && (p == |text| || text[p] !in "(-0123456789." ==> ExpressionAt(a, text, pos) == Err(ExpectedNumber))
            && (p < |text| && text[p] in "0123456789." && a.number(text[p..NumberEnd(text, p)]) == None ==>
                  ExpressionAt(a, text, pos) == Err(BadNumber))
  {
    hide TermLoop;
    hide ExpressionLoop;
    var p := SkipSpaces(text, pos);
    assert SkipSpaces(text, p) == p;
    if p < |text| {
      NumberChars(text[p]);
      var chars := "(-0123456789.";
      assert chars == "(-" + "0123456789." && chars[0] == '(' && chars[1] == '-';
      assert text[p] in chars <==> text[p] == '(' || text[p] == '-' || text[p] in "0123456789.";
      assert IsNumberChar(text[p]) ==> NumberEnd(text, p) > p;
    }
    if !Sees(text, p, '(') && !Sees(text, p, '-') {
      assert FactorAt(a, text, pos) == NumberAt(a, text, p);
      if NumberAt(a, text, p).Err? {
        assert TermAt(a, text, pos) == Err(NumberAt(a, text, p).error);
        assert ExpressionAt(a, text, pos) == Err(NumberAt(a, text, p).error);
      }
    }
  }

  /** A group whose sum ends where no closing parenthesis is. */
  lemma {:induction false} GroupNotClosed<V>(a: Arithmetic<V>, text: string, pos: nat)
    requires pos <= |text| && Sees(text, SkipSpaces(text, pos), '(')
    requires ExpressionAt(a, text, SkipSpaces(text, pos) + 1).Ok?
    requires !Sees(text, SkipSpaces(text, ExpressionAt(a, text, SkipSpaces(text, pos) + 1).value.pos), ')')
    ensures FactorAt(a, text, pos) == Err(MissingParenthesis)
  {
    hide ExpressionAt;
  }

  // ------------------------------------------------------------ the evaluator object

  /** The value of a read, and the position it leaves behind when it succeeded. */
  ghost predicate Left<V>(r: Result<Read<V>, Failure>, value: Result<V, Failure>, pos: nat) {
    match r
    case Ok(read) => value == Ok(read.value) && pos == read.pos
    case Err(e) => value == Err(e)
  }

  class Evaluator<V> {
    const text: string
    const arithmetic: Arithmetic<V>
    var pos: nat

    ghost predicate Valid()
      reads this
    {
      pos <= |text|
    }

    constructor (arithmetic: Arithmetic<V>, text: string)
      ensures Valid() && pos == 0 && this.text == text && this.arithmetic == arithmetic
    {
      this.arithmetic, this.text, pos := arithmetic, text, 0;
    }

    method Evaluate() returns (value: Result<V, Failure>)
      requires Valid() && pos == 0
      modifies this
      ensures value == Evaluated(arithmetic, text)
    {
      value := Expression();
      if value.Err? {
        return;
      }
      Skip();
      if pos != |text| {
        value := Err(UnexpectedCharacter);
      }
    }

    method Expression() returns (value: Result<V, Failure>)
      requires Valid()
      modifies this
      ensures Valid() && Left(ExpressionAt(arithmetic, text, old(pos)), value, pos)
      decreases |text| - pos, 4
    {
      hide FactorAt;
      hide TermAt;
      hide TermLoop;
      hide SkipSpaces;
      value := Term();
      if value.Err? {
        return;
      }
      hide ExpressionLoop;
      while true
        invariant Valid() && value.Ok? && pos > old(pos)
        invariant ExpressionAt(arithmetic, text, old(pos)) == ExpressionLoop(arithmetic, text, pos, value.value)
        decreases |text| - pos
      {
        ExpressionLoopUnfold(arithmetic, text, pos, value.value);
        Skip();
        var left := value.value;
        var plus := Consume('+');
        if plus {
          value := Term();
          if value.Err? {
            return;
          }
          value := Ok(arithmetic.add(left, value.value));
        } else {
          var minus := Consume('-');
          if !minus {
            return;
          }
          value := Term();
          if value.Err? {
            return;
          }
          value := Ok(arithmetic.subtract(left, value.value));
        }
      }
    }

    method Term() returns (value: Result<V, Failure>)
      requires Valid()
      modifies this
      ensures Valid() && Left(TermAt(arithmetic, text, old(pos)), value, pos)
      decreases |text| - pos, 2
    {
      hide FactorAt;
      hide ExpressionAt;
      hide ExpressionLoop;
      hide SkipSpaces;
      value := Factor();
      if value.Err? {
        return;
      }
      hide TermLoop;
      while true
        invariant Valid() && value.Ok? && pos > old(pos)
        invariant TermAt(arithmetic, text, old(pos)) == TermLoop(arithmetic, text, pos, value.value)
        decreases |text| - pos
      {
        TermLoopUnfold(arithmetic, text, pos, value.value);
        Skip();
        var left := value.value;
        var times := Consume('*');
        if times {
          value := Factor();
          if value.Err? {
            return;
          }
          value := Ok(arithmetic.multiply(left, value.value));
        } else {
          var over := Consume('/');
          if !over {
            return;
          }
          value := Factor();
          if value.Err? {
            return;
          }
          if arithmetic.isZero(value.value) {
            return Err(DivisionByZero);
          }
          value := Ok(arithmetic.divide(left, value.value));
        }
      }
    }

    method Factor() returns (value: Result<V, Failure>)
      requires Valid()
      modifies this
      ensures Valid() && Left(FactorAt(arithmetic, text, old(pos)), value, pos)
      decreases |text| - pos, 0
    {
      hide ExpressionAt;
      hide TermAt;
      hide TermLoop;
      hide ExpressionLoop;
      Skip();
      var open := Consume('(');
      if open {
        value := Expression();
        if value.Err? {
          return;
        }
        Skip();
        var close := Consume(')');
        if !close {
          value := Err(MissingParenthesis);
        }
        return;
      }
      var minus := Consume('-');
      if minus {
        value := Factor();
        if value.Ok? {
          value := Ok(arithmetic.negate(value.value));
        }
        return;
      }
      value := ReadNumber();
    }

    method ReadNumber() returns (value: Result<V, Failure>)
      requires Valid()
      modifies this
      ensures Valid() && Left(NumberAt(arithmetic, text, old(pos)), value, pos)
    {
      Skip();
      var start := pos;
      while pos < |text| && IsNumberChar(text[pos])
        invariant start <= pos <= |text|
        invariant NumberEnd(text, start) == NumberEnd(text, pos)
      {
        pos := pos + 1;
      }
      if start == pos {
        return Err(ExpectedNumber);
      }
      var v := arithmetic.number(text[start..pos]);
      value := if v.None? then Err(BadNumber) else Ok(v.value);
    }

    method Skip()
      requires Valid()
      modifies this
      ensures Valid() && pos == SkipSpaces(text, old(pos))
    {
      while pos < |text| && text[pos] == ' '
        invariant pos <= |text| && SkipSpaces(text, old(pos)) == SkipSpaces(text, pos)
      {
        pos := pos + 1;
      }
    }

    method Consume(c: char) returns (consumed: bool)
      requires Valid()
      modifies this
      ensures Valid() && consumed == Sees(text, old(pos), c)
      ensures pos == if consumed then old(pos) + 1 else old(pos)
    {
      consumed := pos < |text| && text[pos] == c;
      if consumed {
        pos := pos + 1;
      }
    }
  }
}
