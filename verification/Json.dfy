/** JSON values as the library represents them. */
module JsonValues {
  import opened Text
  import opened Wrappers

  datatype Json =
    | Null
    | Bool(b: bool)
    | Int(n: int)
    | Float(r: real)
    | Str(s: string)
    | Arr(items: seq<Json>)
    | Obj(fields: map<string, Json>)

  function NumberOf(j: Json): Option<real> {
    match j
    case Int(n) => Some(n as real)
    case Float(r) => Some(r)
    case _ => None
  }

  /** Two integers, of which the library keeps a negative one as signed 64-bit and any other as unsigned
      or signed: before a signed and an unsigned one are compared, the unsigned one is cast. */
  predicate SameInteger(a: int, b: int) {
    if a < 0 <= b then a == WrapTo(b, TWO_TO_64)
    else if b < 0 <= a then WrapTo(a, TWO_TO_64) == b
    else a == b
  }

  predicate SameNumber(a: Json, b: Json) {
    if a.Int? && b.Int? then SameInteger(a.n, b.n) else NumberOf(a).Some? && NumberOf(a) == NumberOf(b)
  }

  /** The integers that the library keeps as such: larger ones become floating-point when they are read. */
  predicate IsMachineInteger(n: int) {
    -(TWO_TO_64 / 2) <= n < TWO_TO_64
  }

  /** Comparing integers is comparing their values, except that a negative one is taken for the
      unsigned one 2^64 above it. */
  lemma IntegersCompared(a: int, b: int)
    requires IsMachineInteger(a) && IsMachineInteger(b)
    ensures SameInteger(a, b) <==> a == b || a == b + TWO_TO_64 || b == a + TWO_TO_64
  {
  }

  /** The library's `==`: an integer equals a floating-point number of the same value, and integers are
      compared as above, at any depth. */
  ghost predicate SameValue(a: Json, b: Json)
    decreases a
  {
    match (a, b)
    case (Null, Null) => true
    case (Bool(x), Bool(y)) => x == y
    case (Str(x), Str(y)) => x == y
    case (Arr(x), Arr(y)) => |x| == |y| && forall i :: 0 <= i < |x| ==> SameValue(x[i], y[i])
    case (Obj(x), Obj(y)) => x.Keys == y.Keys && forall k :: k in x ==> SameValue(x[k], y[k])
    case _ => SameNumber(a, b)
  }

  /** Numbers are compared by value when one of them is a floating-point number, and nothing else is
      ever the same as a number. */
  lemma NumbersCompared(j: Json, r: real, q: real, n: int)
    ensures SameValue(Float(r), Float(q)) <==> r == q
    ensures SameValue(Int(n), Float(r)) <==> n as real == r
    ensures SameValue(Float(r), Int(n)) <==> n as real == r
    ensures SameValue(Int(n), j) || SameValue(j, Int(n)) || SameValue(Float(r), j) || SameValue(j, Float(r)) ==> j.Int? || j.Float?
  {
  }

  ghost predicate NoNumbers(j: Json) {
    match j
    case Int(_) => false
    case Float(_) => false
    case Arr(items) => forall i :: 0 <= i < |items| ==> NoNumbers(items[i])
    case Obj(fields) => forall k :: k in fields ==> NoNumbers(fields[k])
    case _ => true
  }

  /** Values without numbers are the same exactly when they are equal. */
  lemma {:induction false} SameIsEqual(a: Json, b: Json)
    requires NoNumbers(a)
    ensures SameValue(a, b) <==> a == b
    decreases a
  {
    match (a, b)
    case (Arr(x), Arr(y)) =>
      if |x| == |y| {
        forall i | 0 <= i < |x|
          ensures SameValue(x[i], y[i]) <==> x[i] == y[i]
        {
          SameIsEqual(x[i], y[i]);
        }
        assert x == y <==> forall i :: 0 <= i < |x| ==> x[i] == y[i];
      }
    case (Obj(x), Obj(y)) =>
      if x.Keys == y.Keys {
        forall k | k in x
          ensures SameValue(x[k], y[k]) <==> x[k] == y[k]
        {
          SameIsEqual(x[k], y[k]);
        }
        assert x == y <==> forall k :: k in x ==> x[k] == y[k];
      }
    case _ =>
  }
}
