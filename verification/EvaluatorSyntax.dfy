/** Which texts the evaluator accepts, and what it computes for them: the renderings of expression
    trees, with any spaces and parentheses, and the operations of the tree. */
module EvaluatorSyntax {
  import opened Wrappers
  import opened Evaluation

  // ------------------------------------------------------------ trees and their values

  datatype Operator = Plus | Minus | Times | Over

  datatype Tree = Leaf(literal: string) | Negated(t: Tree) | Node(l: Tree, op: Operator, r: Tree)

  function Combine<V>(a: Arithmetic<V>, op: Operator, x: V, y: V): Result<V, Failure> {
    match op
    case Plus => Ok(a.add(x, y))
    case Minus => Ok(a.subtract(x, y))
    case Times => Ok(a.multiply(x, y))
    case Over => if a.isZero(y) then Err(DivisionByZero) else Ok(a.divide(x, y))
  }

  /** The value of a tree: operands left to right, then the operation. */
  function Value<V>(a: Arithmetic<V>, t: Tree): Result<V, Failure> {
    match t
    case Leaf(literal) => (match a.number(literal) case None => Err(BadNumber) case Some(v) => Ok(v))
    case Negated(u) => (match Value(a, u) case Err(e) => Err(e) case Ok(v) => Ok(a.negate(v)))
    case Node(l, op, r) =>
      match Value(a, l)
      case Err(e) => Err(e)
      case Ok(x) => match Value(a, r) case Err(e) => Err(e) case Ok(y) => Combine(a, op, x, y)
  }

  // ------------------------------------------------------------ renderings

  /** A sum: terms joined left to right. `gap` counts the spaces before the operator. */
  datatype Sum = OneTerm(t: Product) | Sum(left: Sum, gap: nat, minus: bool, t: Product)

  datatype Product = OneFactor(f: Atom) | Product(left: Product, gap: nat, over: bool, f: Atom)

  /** An operand after `gap` spaces; a group has `close` spaces before its closing parenthesis. */
  datatype Atom = Number(gap: nat, literal: string) | Negate(gap: nat, f: Atom) | Group(gap: nat, s: Sum, close: nat)

  function Spaces(n: nat): (s: string)
    ensures |s| == n && forall i :: 0 <= i < n ==> s[i] == ' '
  {
    seq(n, _ => ' ')
  }

  function SumText(s: Sum): string {
    match s
    case OneTerm(t) => ProductText(t)
    case Sum(left, gap, minus, t) => SumText(left) + Spaces(gap) + (if minus then "-" else "+") + ProductText(t)
  }

  function ProductText(p: Product): string {
    match p
    case OneFactor(f) => AtomText(f)
    case Product(left, gap, over, f) => ProductText(left) + Spaces(gap) + (if over then "/" else "*") + AtomText(f)
  }

  function AtomText(f: Atom): string {
    match f
    case Number(gap, literal) => Spaces(gap) + literal
    case Negate(gap, g) => Spaces(gap) + "-" + AtomText(g)
    case Group(gap, s, close) => Spaces(gap) + "(" + SumText(s) + Spaces(close) + ")"
  }

  predicate IsLiteral(s: string) {
    s != "" && forall i :: 0 <= i < |s| ==> IsNumberChar(s[i])
  }

  predicate SumOk(s: Sum) {
    match s
    case OneTerm(t) => ProductOk(t)
    case Sum(left, _, _, t) => SumOk(left) && ProductOk(t)
  }

  predicate ProductOk(p: Product) {
    match p
    case OneFactor(f) => AtomOk(f)
    case Product(left, _, _, f) => ProductOk(left) && AtomOk(f)
  }

  predicate AtomOk(f: Atom) {
    match f
    case Number(_, literal) => IsLiteral(literal)
    case Negate(_, g) => AtomOk(g)
    case Group(_, s, _) => SumOk(s)
  }

  function SumTree(s: Sum): Tree {
    match s
    case OneTerm(t) => ProductTree(t)
    case Sum(left, _, minus, t) => Node(SumTree(left), SumOperator(minus), ProductTree(t))
  }

  function ProductTree(p: Product): Tree {
    match p
    case OneFactor(f) => AtomTree(f)
    case Product(left, _, over, f) => Node(ProductTree(left), ProductOperator(over), AtomTree(f))
  }

  function AtomTree(f: Atom): Tree {
    match f
    case Number(_, literal) => Leaf(literal)
    case Negate(_, g) => Negated(AtomTree(g))
    case Group(_, s, _) => SumTree(s)
  }

  // ------------------------------------------------------------ the evaluator one step at a time

  lemma {:induction false} FactorNegates<V>(a: Arithmetic<V>, text: string, pos: nat)
    requires pos <= |text| && Sees(text, SkipSpaces(text, pos), '-')
    ensures FactorAt(a, text, pos) ==
            match FactorAt(a, text, SkipSpaces(text, pos) + 1)
            case Err(e) => Err(e)
            case Ok(read) => Ok(Read(a.negate(read.value), read.pos))
  {
    hide ExpressionAt;
  }

  lemma {:induction false} FactorGroups<V>(a: Arithmetic<V>, text: string, pos: nat)
    requires pos <= |text| && Sees(text, SkipSpaces(text, pos), '(')
    ensures FactorAt(a, text, pos) ==
            match ExpressionAt(a, text, SkipSpaces(text, pos) + 1)
            case Err(e) => Err(e)
            case Ok(read) =>
              var q := SkipSpaces(text, read.pos);
              if Sees(text, q, ')') then Ok(Read(read.value, q + 1)) else Err(MissingParenthesis)
  {
    hide ExpressionAt;
  }

  lemma {:induction false} FactorReads<V>(a: Arithmetic<V>, text: string, pos: nat)
    requires pos <= |text|
    requires var p := SkipSpaces(text, pos); !Sees(text, p, '(') && !Sees(text, p, '-')
    ensures FactorAt(a, text, pos) == NumberAt(a, text, SkipSpaces(text, pos))
  {
  }

  lemma {:induction false} TermStarts<V>(a: Arithmetic<V>, text: string, pos: nat)
    requires pos <= |text|
    ensures TermAt(a, text, pos) ==
            match FactorAt(a, text, pos) case Err(e) => Err(e) case Ok(read) => TermLoop(a, text, read.pos, read.value)
  {
    hide FactorAt;
    hide TermLoop;
  }

  function ProductOperator(over: bool): Operator {
    if over then Over else Times
  }

  function SumOperator(minus: bool): Operator {
    if minus then Minus else Plus
  }

  lemma {:induction false} TermContinues<V>(a: Arithmetic<V>, text: string, pos: nat, value: V, over: bool)
    requires pos <= |text| && Sees(text, SkipSpaces(text, pos), if over then '/' else '*')
    ensures TermLoop(a, text, pos, value) ==
            match FactorAt(a, text, SkipSpaces(text, pos) + 1)
            case Err(e) => Err(e)
            case Ok(read) =>
              match Combine(a, ProductOperator(over), value, read.value)
              case Err(e) => Err(e)
              case Ok(v) => TermLoop(a, text, read.pos, v)
  {
    hide FactorAt;
  }

  lemma {:induction false} ExpressionStarts<V>(a: Arithmetic<V>, text: string, pos: nat)
    requires pos <= |text|
    ensures ExpressionAt(a, text, pos) ==
            match TermAt(a, text, pos) case Err(e) => Err(e) case Ok(read) => ExpressionLoop(a, text, read.pos, read.value)
  {
    hide TermAt;
    hide ExpressionLoop;
  }

  lemma {:induction false} ExpressionContinues<V>(a: Arithmetic<V>, text: string, pos: nat, value: V, minus: bool)
    requires pos <= |text| && Sees(text, SkipSpaces(text, pos), if minus then '-' else '+')
    ensures ExpressionLoop(a, text, pos, value) ==
            match TermAt(a, text, SkipSpaces(text, pos) + 1)
            case Err(e) => Err(e)
            case Ok(read) =>
              match Combine(a, SumOperator(minus), value, read.value)
              case Err(e) => Err(e)
              case Ok(v) => ExpressionLoop(a, text, read.pos, v)
  {
    hide TermAt;
  }

  // ------------------------------------------------------------ every rendering is evaluated as its tree

  /** `s` stands in the text from `pos`. */
  ghost predicate At(text: string, pos: nat, s: string) {
    pos + |s| <= |text| && text[pos..pos + |s|] == s
  }

  lemma AtSplit(text: string, pos: nat, s: string, t: string)
    requires At(text, pos, s + t)
    ensures At(text, pos, s) && At(text, pos + |s|, t)
  {
    assert (s + t)[..|s|] == s && (s + t)[|s|..] == t;
    assert text[pos..pos + |s|] == text[pos..pos + |s + t|][..|s|];
    assert text[pos + |s|..pos + |s + t|] == text[pos..pos + |s + t|][|s|..];
  }

  lemma {:induction false} SkipOver(text: string, pos: nat, n: nat)
    requires At(text, pos, Spaces(n)) && pos + n <= |text|
    ensures SkipSpaces(text, pos) == SkipSpaces(text, pos + n)
    decreases n
  {
    if n > 0 {
      assert text[pos] == text[pos..pos + n][0];
      assert text[pos + 1..pos + n] == text[pos..pos + n][1..];
      assert text[pos + 1..pos + 1 + (n - 1)] == Spaces(n - 1);
      SkipOver(text, pos + 1, n - 1);
    }
  }

  /** Spaces, then a character that is no space. */
  lemma SkipTo(text: string, pos: nat, n: nat, c: char)
    requires At(text, pos, Spaces(n)) && Sees(text, pos + n, c) && c != ' '
    ensures SkipSpaces(text, pos) == pos + n
  {
    SkipOver(text, pos, n);
  }

  lemma AtChar(text: string, pos: nat, c: char)
    requires At(text, pos, [c])
    ensures Sees(text, pos, c)
  {
    assert text[pos..pos + 1][0] == c;
  }

  ghost predicate NumberStops(text: string, pos: nat) {
    pos <= |text| && (pos < |text| ==> !IsNumberChar(text[pos]))
  }

  /** After `pos` neither the number nor the product goes on. */
  ghost predicate ProductStops(text: string, pos: nat) {
    && NumberStops(text, pos)
    && var p := SkipSpaces(text, pos); !Sees(text, p, '*') && !Sees(text, p, '/')
  }

  ghost predicate SumStops(text: string, pos: nat) {
    ProductStops(text, pos) && var p := SkipSpaces(text, pos); !Sees(text, p, '+') && !Sees(text, p, '-')
  }

  function Then<V>(value: Result<V, Failure>, pos: nat): Result<Read<V>, Failure> {
    match value
    case Err(e) => Err(e)
    case Ok(v) => Ok(Read(v, pos))
  }

  lemma {:induction false} NumberEndAt(text: string, pos: nat, literal: string)
    requires At(text, pos, literal) && NumberStops(text, pos + |literal|)
    requires forall i :: 0 <= i < |literal| ==> IsNumberChar(literal[i])
    ensures NumberEnd(text, pos) == pos + |literal|
    decreases |literal|
  {
    if literal != "" {
      assert text[pos] == text[pos..pos + |literal|][0] == literal[0];
      assert text[pos + 1..pos + |literal|] == text[pos..pos + |literal|][1..] == literal[1..];
      NumberEndAt(text, pos + 1, literal[1..]);
    }
  }

  lemma {:induction false} AtomEvaluates<V>(a: Arithmetic<V>, text: string, pos: nat, f: Atom)
    requires AtomOk(f) && At(text, pos, AtomText(f)) && NumberStops(text, pos + |AtomText(f)|)
    ensures FactorAt(a, text, pos) == Then(Value(a, AtomTree(f)), pos + |AtomText(f)|)
    decreases f
  {
    hide FactorAt;
    hide ExpressionAt;
    hide ExpressionLoop;
    hide SkipSpaces;
    hide At;
    match f
    case Number(gap, literal) =>
      NumberEvaluates(a, text, pos, gap, literal);
    case Negate(gap, g) =>
      NegateParts(text, pos, gap, g);
      SkipTo(text, pos, gap, '-');
      FactorNegates(a, text, pos);
      AtomEvaluates(a, text, pos + gap + 1, g);
    case Group(gap, s, close) =>
      GroupParts(text, pos, gap, s, close);
      var start := pos + gap + 1;
      SkipTo(text, pos, gap, '(');
      SkipTo(text, start + |SumText(s)|, close, ')');
      SumEvaluates(a, text, start, s);
      GroupEvaluates(a, text, pos, pos + gap, start + |SumText(s)|, close, Value(a, SumTree(s)));
  }

  lemma GroupEvaluates<V>(a: Arithmetic<V>, text: string, pos: nat, p: nat, end: nat, close: nat, value: Result<V, Failure>)
    requires pos <= |text| && SkipSpaces(text, pos) == p && Sees(text, p, '(')
    requires end <= |text| && SkipSpaces(text, end) == end + close && Sees(text, end + close, ')')
    requires ExpressionAt(a, text, p + 1) == if value.Err? then Err(value.error) else ExpressionLoop(a, text, end, value.value)
    ensures FactorAt(a, text, pos) == Then(value, end + close + 1)
  {
    hide FactorAt;
    hide ExpressionAt;
    hide ExpressionLoop;
    hide SkipSpaces;
    FactorGroups(a, text, pos);
    if value.Ok? {
      ExpressionLoopEnds(a, text, end, value.value);
      SkipAgain(text, end);
    }
  }

  lemma NegateParts(text: string, pos: nat, gap: nat, g: Atom)
    requires At(text, pos, AtomText(Negate(gap, g)))
    ensures At(text, pos, Spaces(gap)) && Sees(text, pos + gap, '-') && At(text, pos + gap + 1, AtomText(g))
    ensures |AtomText(Negate(gap, g))| == gap + 1 + |AtomText(g)|
  {
    AtSplit(text, pos, Spaces(gap) + "-", AtomText(g));
    AtSplit(text, pos, Spaces(gap), "-");
    AtChar(text, pos + gap, '-');
  }

  lemma NumberEvaluates<V>(a: Arithmetic<V>, text: string, pos: nat, gap: nat, literal: string)
    requires IsLiteral(literal) && At(text, pos, Spaces(gap) + literal) && NumberStops(text, pos + gap + |literal|)
    ensures FactorAt(a, text, pos) == Then(Value(a, Leaf(literal)), pos + gap + |literal|)
  {
    hide FactorAt;
    hide NumberEnd;
    AtSplit(text, pos, Spaces(gap), literal);
    var p := pos + gap;
    assert text[p] == text[p..p + |literal|][0];
    SkipTo(text, pos, gap, literal[0]);
    NumberEndAt(text, p, literal);
    assert SkipSpaces(text, p) == p;
    FactorReads(a, text, pos);
  }

  lemma GroupParts(text: string, pos: nat, gap: nat, s: Sum, close: nat)
    requires At(text, pos, AtomText(Group(gap, s, close)))
    ensures var start := pos + gap + 1;
            var end := start + |SumText(s)|;
            && At(text, pos, Spaces(gap)) && Sees(text, pos + gap, '(')
            && At(text, start, SumText(s)) && At(text, end, Spaces(close)) && Sees(text, end + close, ')')
            && NumberStops(text, end) && |AtomText(Group(gap, s, close))| == (end + close + 1) - pos
  {
    var start := pos + gap + 1;
    var end := start + |SumText(s)|;
    AtSplit(text, pos, Spaces(gap) + "(" + SumText(s) + Spaces(close), ")");
    AtChar(text, end + close, ')');
    AtSplit(text, pos, Spaces(gap) + "(" + SumText(s), Spaces(close));
    AtSplit(text, pos, Spaces(gap) + "(", SumText(s));
    AtSplit(text, pos, Spaces(gap), "(");
    AtChar(text, pos + gap, '(');
    if close > 0 {
      assert text[end] == text[end..end + close][0];
    }
  }

  lemma SkipAgain(text: string, pos: nat)
    requires pos <= |text|
    ensures SkipSpaces(text, SkipSpaces(text, pos)) == SkipSpaces(text, pos)
  {
  }

  /** After its last factor a product is what the loop makes of it. */
  lemma {:induction false} ProductEvaluates<V>(a: Arithmetic<V>, text: string, pos: nat, p: Product)
    requires ProductOk(p) && At(text, pos, ProductText(p)) && NumberStops(text, pos + |ProductText(p)|)
    ensures var value := Value(a, ProductTree(p));
            TermAt(a, text, pos) ==
            if value.Err? then Err(value.error) else TermLoop(a, text, pos + |ProductText(p)|, value.value)
    decreases p
  {
    hide FactorAt;
    hide TermLoop;
    hide TermAt;
    hide SkipSpaces;
    hide At;
    match p
    case OneFactor(f) =>
      TermStarts(a, text, pos);
      AtomEvaluates(a, text, pos, f);
    case Product(left, gap, over, f) =>
      var middle := pos + |ProductText(left)|;
      OperatorParts(text, pos, ProductText(left), gap, if over then '/' else '*', AtomText(f));
      ProductEvaluates(a, text, pos, left);
      AtomEvaluates(a, text, middle + gap + 1, f);
      if Value(a, ProductTree(left)).Ok? {
        TermContinues(a, text, middle, Value(a, ProductTree(left)).value, over);
      }
  }

  lemma OperatorParts(text: string, pos: nat, left: string, gap: nat, c: char, right: string)
    requires At(text, pos, left + Spaces(gap) + [c] + right) && c != ' ' && !IsNumberChar(c)
    ensures var middle := pos + |left|;
            && At(text, pos, left) && At(text, middle, Spaces(gap)) && Sees(text, middle + gap, c)
            && At(text, middle + gap + 1, right) && NumberStops(text, middle)
            && SkipSpaces(text, middle) == middle + gap
  {
    var middle := pos + |left|;
    AtSplit(text, pos, left + Spaces(gap) + [c], right);
    AtSplit(text, pos, left + Spaces(gap), [c]);
    AtSplit(text, pos, left, Spaces(gap));
    AtChar(text, middle + gap, c);
    SkipTo(text, middle, gap, c);
    if gap > 0 {
      assert text[middle] == text[middle..middle + gap][0];
    }
  }

  lemma {:induction false} TermLoopEnds<V>(a: Arithmetic<V>, text: string, pos: nat, value: V)
    requires pos <= |text|
    requires var p := SkipSpaces(text, pos); !Sees(text, p, '*') && !Sees(text, p, '/')
    ensures TermLoop(a, text, pos, value) == Ok(Read(value, SkipSpaces(text, pos)))
  {
  }

  lemma {:induction false} ExpressionLoopEnds<V>(a: Arithmetic<V>, text: string, pos: nat, value: V)
    requires pos <= |text|
    requires var p := SkipSpaces(text, pos); !Sees(text, p, '+') && !Sees(text, p, '-')
    ensures ExpressionLoop(a, text, pos, value) == Ok(Read(value, SkipSpaces(text, pos)))
  {
  }

  lemma ProductEnds<V>(a: Arithmetic<V>, text: string, pos: nat, value: V)
    requires ProductStops(text, pos)
    ensures TermLoop(a, text, pos, value) == Ok(Read(value, SkipSpaces(text, pos)))
  {
    TermLoopEnds(a, text, pos, value);
  }

  lemma SumEnds<V>(a: Arithmetic<V>, text: string, pos: nat, value: V)
    requires SumStops(text, pos)
    ensures ExpressionLoop(a, text, pos, value) == Ok(Read(value, SkipSpaces(text, pos)))
  {
    ExpressionLoopEnds(a, text, pos, value);
  }

  lemma LoopSkips<V>(a: Arithmetic<V>, text: string, pos: nat, value: V)
    requires pos <= |text|
    ensures ExpressionLoop(a, text, SkipSpaces(text, pos), value) == ExpressionLoop(a, text, pos, value)
  {
    SkipAgain(text, pos);
  }

  lemma {:induction false} SumEvaluates<V>(a: Arithmetic<V>, text: string, pos: nat, s: Sum)
    requires SumOk(s) && At(text, pos, SumText(s)) && ProductStops(text, pos + |SumText(s)|)
    ensures var value := Value(a, SumTree(s));
            ExpressionAt(a, text, pos) ==
            if value.Err? then Err(value.error) else ExpressionLoop(a, text, pos + |SumText(s)|, value.value)
    decreases s
  {
    hide TermLoop;
    hide TermAt;
    hide ExpressionLoop;
    hide ExpressionAt;
    hide SkipSpaces;
    hide At;
    var end := pos + |SumText(s)|;
    match s
    case OneTerm(t) =>
      ExpressionStarts(a, text, pos);
      ProductEvaluates(a, text, pos, t);
      var value := Value(a, ProductTree(t));
      if value.Ok? {
        ProductEnds(a, text, end, value.value);
        LoopSkips(a, text, end, value.value);
      }
    case Sum(left, gap, minus, t) =>
      var middle := pos + |SumText(left)|;
      OperatorParts(text, pos, SumText(left), gap, if minus then '-' else '+', ProductText(t));
      SumEvaluates(a, text, pos, left);
      ProductEvaluates(a, text, middle + gap + 1, t);
      SumStep(a, text, pos, middle, end, minus, Value(a, SumTree(left)), Value(a, ProductTree(t)));
  }

  /** A sum up to `middle`, an operator, and a product up to `end`. */
  lemma SumStep<V>(a: Arithmetic<V>, text: string, pos: nat, middle: nat, end: nat, minus: bool,
                   l: Result<V, Failure>, r: Result<V, Failure>)
    requires pos <= |text| && middle <= |text| && ProductStops(text, end)
    requires Sees(text, SkipSpaces(text, middle), if minus then '-' else '+')
    requires ExpressionAt(a, text, pos) == if l.Err? then Err(l.error) else ExpressionLoop(a, text, middle, l.value)
    requires TermAt(a, text, SkipSpaces(text, middle) + 1) == if r.Err? then Err(r.error) else TermLoop(a, text, end, r.value)
    ensures ExpressionAt(a, text, pos) ==
            if l.Err? then Err(l.error) else if r.Err? then Err(r.error)
            else ExpressionLoop(a, text, end, Combine(a, SumOperator(minus), l.value, r.value).value)
  {
    hide TermLoop;
    hide TermAt;
    hide ExpressionLoop;
    hide ExpressionAt;
    hide SkipSpaces;
    if l.Ok? {
      ExpressionContinues(a, text, middle, l.value, minus);
      if r.Ok? {
        ProductEnds(a, text, end, r.value);
        LoopSkips(a, text, end, Combine(a, SumOperator(minus), l.value, r.value).value);
      }
    }
  }

  ghost predicate Renders(text: string, t: Tree) {
    exists s, n :: RendersAs(text, t, s, n)
  }

  ghost predicate RendersAs(text: string, t: Tree, s: Sum, trailing: nat) {
    SumOk(s) && SumTree(s) == t && text == SumText(s) + Spaces(trailing)
  }

  /** Any rendering of a tree evaluates to exactly the tree's value, or to the error of the tree's
      first failing operation. */
  lemma RenderingEvaluates<V>(a: Arithmetic<V>, text: string, t: Tree)
    requires Renders(text, t)
    ensures Evaluated(a, text) == Value(a, t)
  {
    hide ExpressionAt;
    hide ExpressionLoop;
    var s: Sum, n: nat :| RendersAs(text, t, s, n);
    var end := |SumText(s)|;
    assert text == SumText(s) + Spaces(n);
    assert text[0..end] == SumText(s) && text[end..end + n] == Spaces(n);
    SkipOver(text, end, n);
    assert SkipSpaces(text, end) == |text|;
    if n > 0 {
      assert text[end] == text[end..end + n][0];
    }
    SumEvaluates(a, text, 0, s);
    if Value(a, t).Ok? {
      SumEnds(a, text, end, Value(a, t).value);
    }
  }

  /** A rendering whose tree has a value, followed by something that cannot continue it, is an unexpected
      character. */
  lemma {:induction false} TrailingTextRefused<V>(a: Arithmetic<V>, text: string, s: Sum)
    requires SumOk(s) && At(text, 0, SumText(s)) && Value(a, SumTree(s)).Ok?
    requires ProductStops(text, |SumText(s)|) && SumStops(text, |SumText(s)|)
    requires SkipSpaces(text, |SumText(s)|) < |text|
    ensures Evaluated(a, text) == Err(UnexpectedCharacter)
  {
    hide ExpressionAt;
    hide ExpressionLoop;
    var end := |SumText(s)|;
    SumEvaluates(a, text, 0, s);
    SumEnds(a, text, end, Value(a, SumTree(s)).value);
    SkipAgain(text, end);
  }

  // ------------------------------------------------------------ only renderings are accepted

  lemma SpacesAt(text: string, from: nat, to: nat)
    requires from <= to <= |text| && forall i :: from <= i < to ==> text[i] == ' '
    ensures text[from..to] == Spaces(to - from)
  {
  }

  lemma {:induction false} FactorAccepts<V>(a: Arithmetic<V>, text: string, pos: nat) returns (f: Atom)
    requires pos <= |text| && FactorAt(a, text, pos).Ok?
    ensures var read := FactorAt(a, text, pos).value;
            AtomOk(f) && text[pos..read.pos] == AtomText(f) && Value(a, AtomTree(f)) == Ok(read.value)
    decreases |text| - pos, 0
  {
    hide FactorAt;
    hide ExpressionAt;
    hide SkipSpaces;
    var read := FactorAt(a, text, pos).value;
    var p := SkipSpaces(text, pos);
    SpacesAt(text, pos, p);
    if Sees(text, p, '(') {
      FactorGroups(a, text, pos);
      var inner := ExpressionAt(a, text, p + 1).value;
      var s, n := ExpressionAccepts(a, text, p + 1);
      var q := SkipSpaces(text, inner.pos);
      SpacesAt(text, inner.pos, q);
      f := Group(p - pos, s, n + (q - inner.pos));
      JoinGroup(text, pos, p, inner.pos, q, SumText(s), n);
    } else if Sees(text, p, '-') {
      FactorNegates(a, text, pos);
      var g := FactorAccepts(a, text, p + 1);
      f := Negate(p - pos, g);
      assert text[pos..read.pos] == text[pos..p] + text[p..p + 1] + text[p + 1..read.pos];
      assert text[p..p + 1] == "-";
    } else {
      FactorReads(a, text, pos);
      SkipAgain(text, pos);
      f := Number(p - pos, text[p..read.pos]);
      assert text[pos..read.pos] == text[pos..p] + text[p..read.pos];
    }
  }

  lemma JoinGroup(text: string, pos: nat, p: nat, end: nat, q: nat, inner: string, n: nat)
    requires pos <= p < end <= q < |text| && text[p] == '(' && text[q] == ')'
    requires text[pos..p] == Spaces(p - pos) && text[p + 1..end] == inner + Spaces(n) && text[end..q] == Spaces(q - end)
    ensures text[pos..q + 1] == Spaces(p - pos) + "(" + inner + Spaces(n + (q - end)) + ")"
  {
    assert text[pos..q + 1] == text[pos..p] + text[p..p + 1] + text[p + 1..end] + text[end..q] + text[q..q + 1];
    assert Spaces(n) + Spaces(q - end) == Spaces(n + (q - end));
    assert text[p..p + 1] == "(" && text[q..q + 1] == ")";
  }

  /** Text read so far: a rendering and some spaces after it. */
  ghost predicate ProductRead<V>(a: Arithmetic<V>, text: string, from: nat, to: nat, p: Product, n: nat, value: V) {
    from <= to <= |text| && ProductOk(p) && text[from..to] == ProductText(p) + Spaces(n) && Value(a, ProductTree(p)) == Ok(value)
  }

  ghost predicate SumRead<V>(a: Arithmetic<V>, text: string, from: nat, to: nat, s: Sum, n: nat, value: V) {
    from <= to <= |text| && SumOk(s) && text[from..to] == SumText(s) + Spaces(n) && Value(a, SumTree(s)) == Ok(value)
  }

  lemma JoinOperator(text: string, from: nat, pos: nat, p: nat, end: nat, left: string, n: nat, c: char, right: string)
    requires from <= pos <= p < end <= |text| && text[p] == c
    requires text[from..pos] == left + Spaces(n) && text[pos..p] == Spaces(p - pos) && text[p + 1..end] == right
    ensures text[from..end] == left + Spaces(n + (p - pos)) + [c] + right
  {
    assert text[from..end] == text[from..pos] + text[pos..p] + text[p..p + 1] + text[p + 1..end];
    assert Spaces(n) + Spaces(p - pos) == Spaces(n + (p - pos));
    assert text[p..p + 1] == [c];
  }

  lemma JoinSpaces(text: string, from: nat, pos: nat, p: nat, n: nat)
    requires from <= pos <= p <= |text| && text[pos..p] == Spaces(p - pos)
    ensures forall left: string :: text[from..pos] == left + Spaces(n) ==> text[from..p] == left + Spaces(n + (p - pos))
  {
    assert text[from..p] == text[from..pos] + text[pos..p];
    assert Spaces(n) + Spaces(p - pos) == Spaces(n + (p - pos));
    forall left: string | text[from..pos] == left + Spaces(n)
      ensures text[from..p] == left + Spaces(n + (p - pos))
    {
      assert (left + Spaces(n)) + Spaces(p - pos) == left + (Spaces(n) + Spaces(p - pos));
    }
  }

  lemma ProductJoined<V>(a: Arithmetic<V>, text: string, from: nat, pos: nat, p: nat, end: nat,
                         left: Product, n: nat, over: bool, f: Atom, x: V, y: V)
    requires ProductRead(a, text, from, pos, left, n, x) && pos <= p < end <= |text|
    requires text[pos..p] == Spaces(p - pos) && text[p] == (if over then '/' else '*') && text[p + 1..end] == AtomText(f)
    requires AtomOk(f) && Value(a, AtomTree(f)) == Ok(y) && Combine(a, ProductOperator(over), x, y).Ok?
    ensures ProductRead(a, text, from, end, Product(left, n + (p - pos), over, f), 0, Combine(a, ProductOperator(over), x, y).value)
  {
    var c := if over then '/' else '*';
    JoinOperator(text, from, pos, p, end, ProductText(left), n, c, AtomText(f));
    var joined := Product(left, n + (p - pos), over, f);
    assert ProductText(joined) + Spaces(0) == ProductText(joined);
  }

  lemma SumJoined<V>(a: Arithmetic<V>, text: string, from: nat, pos: nat, p: nat, end: nat,
                     left: Sum, n: nat, minus: bool, t: Product, k: nat, x: V, y: V)
    requires SumRead(a, text, from, pos, left, n, x) && pos <= p < end <= |text|
    requires text[pos..p] == Spaces(p - pos) && text[p] == (if minus then '-' else '+')
    requires ProductRead(a, text, p + 1, end, t, k, y)
    ensures SumRead(a, text, from, end, Sum(left, n + (p - pos), minus, t), k, Combine(a, SumOperator(minus), x, y).value)
  {
    var c := if minus then '-' else '+';
    JoinOperator(text, from, pos, p, end, SumText(left), n, c, ProductText(t) + Spaces(k));
    var joined := Sum(left, n + (p - pos), minus, t);
    assert SumText(left) + Spaces(n + (p - pos)) + [c] + (ProductText(t) + Spaces(k)) == SumText(joined) + Spaces(k);
  }

  lemma {:induction false} TermLoopAccepts<V>(a: Arithmetic<V>, text: string, from: nat, pos: nat, left: Product, n: nat, value: V)
    returns (result: Product, m: nat)
    requires ProductRead(a, text, from, pos, left, n, value) && TermLoop(a, text, pos, value).Ok?
    ensures var read := TermLoop(a, text, pos, value).value;
            ProductRead(a, text, from, read.pos, result, m, read.value)
    decreases |text| - pos, 1
  {
    hide FactorAt;
    hide SkipSpaces;
    hide TermLoop;
    var p := SkipSpaces(text, pos);
    SpacesAt(text, pos, p);
    var over := Sees(text, p, '/');
    if Sees(text, p, '*') || over {
      TermContinues(a, text, pos, value, over);
      var read := FactorAt(a, text, p + 1).value;
      var f := FactorAccepts(a, text, p + 1);
      var joined := Product(left, n + (p - pos), over, f);
      ProductJoined(a, text, from, pos, p, read.pos, left, n, over, f, value, read.value);
      result, m := TermLoopAccepts(a, text, from, read.pos, joined, 0, Combine(a, ProductOperator(over), value, read.value).value);
    } else {
      TermLoopEnds(a, text, pos, value);
      result, m := left, n + (p - pos);
      JoinSpaces(text, from, pos, p, n);
    }
  }

  lemma {:induction false} TermAccepts<V>(a: Arithmetic<V>, text: string, pos: nat) returns (p: Product, n: nat)
    requires pos <= |text| && TermAt(a, text, pos).Ok?
    ensures var read := TermAt(a, text, pos).value;
            ProductRead(a, text, pos, read.pos, p, n, read.value)
    decreases |text| - pos, 2
  {
    hide FactorAt;
    hide TermLoop;
    hide TermAt;
    TermStarts(a, text, pos);
    var read := FactorAt(a, text, pos).value;
    var f := FactorAccepts(a, text, pos);
    assert AtomText(f) + Spaces(0) == AtomText(f);
    p, n := TermLoopAccepts(a, text, pos, read.pos, OneFactor(f), 0, read.value);
  }

  lemma {:induction false} ExpressionLoopAccepts<V>(a: Arithmetic<V>, text: string, from: nat, pos: nat, left: Sum, n: nat, value: V)
    returns (result: Sum, m: nat)
    requires SumRead(a, text, from, pos, left, n, value) && ExpressionLoop(a, text, pos, value).Ok?
    ensures var read := ExpressionLoop(a, text, pos, value).value;
            SumRead(a, text, from, read.pos, result, m, read.value)
    decreases |text| - pos, 3
  {
    hide TermAt;
    hide SkipSpaces;
    hide ExpressionLoop;
    var p := SkipSpaces(text, pos);
    SpacesAt(text, pos, p);
    var minus := Sees(text, p, '-');
    if Sees(text, p, '+') || minus {
      ExpressionContinues(a, text, pos, value, minus);
      var read := TermAt(a, text, p + 1).value;
      var t, k := TermAccepts(a, text, p + 1);
      var joined := Sum(left, n + (p - pos), minus, t);
      SumJoined(a, text, from, pos, p, read.pos, left, n, minus, t, k, value, read.value);
      result, m := ExpressionLoopAccepts(a, text, from, read.pos, joined, k, Combine(a, SumOperator(minus), value, read.value).value);
    } else {
      ExpressionLoopEnds(a, text, pos, value);
      result, m := left, n + (p - pos);
      JoinSpaces(text, from, pos, p, n);
    }
  }

  lemma {:induction false} ExpressionAccepts<V>(a: Arithmetic<V>, text: string, pos: nat) returns (s: Sum, n: nat)
    requires pos <= |text| && ExpressionAt(a, text, pos).Ok?
    ensures var read := ExpressionAt(a, text, pos).value;
            SumOk(s) && text[pos..read.pos] == SumText(s) + Spaces(n) && Value(a, SumTree(s)) == Ok(read.value)
    decreases |text| - pos, 4
  {
    hide TermAt;
    hide ExpressionLoop;
    hide ExpressionAt;
    ExpressionStarts(a, text, pos);
    var read := TermAt(a, text, pos).value;
    var p, k := TermAccepts(a, text, pos);
    s, n := ExpressionLoopAccepts(a, text, pos, read.pos, OneTerm(p), k, read.value);
  }

  /** The evaluator returns a value for a text exactly when the text renders a tree with that value. */
  lemma AcceptsExactlyRenderings<V>(a: Arithmetic<V>, text: string, v: V)
    ensures Evaluated(a, text) == Ok(v) <==> exists t :: Renders(text, t) && Value(a, t) == Ok(v)
  {
    if Evaluated(a, text) == Ok(v) {
      var read := ExpressionAt(a, text, 0).value;
      var s, n := ExpressionAccepts(a, text, 0);
      SpacesAt(text, read.pos, |text|);
      var trailing := n + (|text| - read.pos);
      assert text == text[0..read.pos] + text[read.pos..|text|];
      assert Spaces(n) + Spaces(|text| - read.pos) == Spaces(trailing);
      assert RendersAs(text, SumTree(s), s, trailing);
      assert Renders(text, SumTree(s));
    }
    if exists t :: Renders(text, t) && Value(a, t) == Ok(v) {
      var t :| Renders(text, t) && Value(a, t) == Ok(v);
      RenderingEvaluates(a, text, t);
    }
  }

  // ------------------------------------------------------------ every tree can be written

  predicate TreeOk(t: Tree) {
    match t
    case Leaf(literal) => IsLiteral(literal)
    case Negated(u) => TreeOk(u)
    case Node(l, _, r) => TreeOk(l) && TreeOk(r)
  }

  /** A fully parenthesized rendering. */
  function Written(t: Tree): Atom {
    match t
    case Leaf(literal) => Number(0, literal)
    case Negated(u) => Negate(0, Written(u))
    case Node(l, op, r) =>
      var x, y := Written(l), Written(r);
      Group(0,
            if op.Plus? || op.Minus? then Sum(OneTerm(OneFactor(x)), 0, op.Minus?, OneFactor(y))
            else OneTerm(Product(OneFactor(x), 0, op.Over?, y)),
            0)
  }

  lemma {:induction false} WrittenTree(t: Tree)
    requires TreeOk(t)
    ensures AtomOk(Written(t)) && AtomTree(Written(t)) == t
  {
    match t
    case Leaf(_) =>
    case Negated(u) => WrittenTree(u);
    case Node(l, op, r) =>
      WrittenTree(l);
      WrittenTree(r);
      var x, y := OneFactor(Written(l)), OneFactor(Written(r));
      assert ProductOk(x) && ProductTree(x) == l && ProductOk(y) && ProductTree(y) == r;
      if op.Plus? || op.Minus? {
        var s := Sum(OneTerm(x), 0, op.Minus?, y);
        assert SumOk(OneTerm(x)) && SumTree(OneTerm(x)) == l;
        assert SumOk(s) && SumTree(s) == t;
      } else {
        var p := Product(x, 0, op.Over?, Written(r));
        assert ProductOk(p) && ProductTree(p) == t;
        assert SumOk(OneTerm(p)) && SumTree(OneTerm(p)) == t;
      }
  }

  /** Every tree over literals has a rendering, so the evaluator computes every tree. */
  lemma {:induction false} EveryTreeRenders(t: Tree)
    requires TreeOk(t)
    ensures Renders(AtomText(Written(t)), t)
  {
    WrittenTree(t);
    var s := OneTerm(OneFactor(Written(t)));
    assert ProductOk(s.t) && ProductTree(s.t) == t;
    assert SumText(s) + Spaces(0) == AtomText(Written(t));
    assert RendersAs(AtomText(Written(t)), t, s, 0);
  }
}
