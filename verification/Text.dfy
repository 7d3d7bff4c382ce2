/** Byte strings: the search, slicing and decimal operations the codecs are written in.
    A `char` stands for one byte. */
module Text {
  import opened Wrappers

  // Numbers of values of 64-bit and 32-bit integers.
  const TWO_TO_64: nat := 0x1_0000_0000_0000_0000
  const TWO_TO_32: nat := 0x1_0000_0000

  /** The signed machine number that an integer is cast to; `modulus` is how many there are. */
  function WrapTo(n: int, modulus: nat): int
    requires modulus > 0
  {
    (n + modulus / 2) % modulus - modulus / 2
  }

  const CRLF: string := "\r\n"

  /** Removes the CR of a CRLF line ending. */
  function Chomp(line: string): (r: string)
    ensures |r| <= |line| && (r == line <==> line == "" || line[|line| - 1] != '\r')
  {
    if line != "" && line[|line| - 1] == '\r' then line[..|line| - 1] else line
  }

  /** The whole text that arrives in pieces. */
  function Flatten(pieces: seq<string>): string {
    if pieces == [] then "" else pieces[0] + Flatten(pieces[1..])
  }

  predicate IsBlank(c: char) {
    c == ' ' || c == '\t'
  }

  predicate MatchAt(s: string, sub: string, i: nat) {
    i + |sub| <= |s| && s[i..i + |sub|] == sub
  }

  /** `std::string::find`: the first occurrence at or after `from`. */
  function Find(s: string, sub: string, from: nat): (r: Option<nat>)
    requires from <= |s|
    ensures r.Some? ==> from <= r.value && MatchAt(s, sub, r.value)
    ensures r.Some? ==> forall j :: from <= j < r.value ==> !MatchAt(s, sub, j)
    ensures r.None? ==> forall j :: from <= j ==> !MatchAt(s, sub, j)
    decreases |s| - from
  {
    if MatchAt(s, sub, from) then Some(from)
    else if from == |s| then None
    else Find(s, sub, from + 1)
  }

  predicate Contains(s: string, sub: string) {
    Find(s, sub, 0).Some?
  }

  lemma FindIs(s: string, sub: string, from: nat, i: nat)
    requires from <= i <= |s|
    requires MatchAt(s, sub, i)
    requires forall j :: from <= j < i ==> !MatchAt(s, sub, j)
    ensures Find(s, sub, from) == Some(i)
  {
  }

  /** Bytes that arrive later do not move an occurrence that is already there. */
  lemma FindAppend(s: string, t: string, sub: string, from: nat)
    requires from <= |s|
    requires Find(s, sub, from).Some?
    ensures Find(s + t, sub, from) == Find(s, sub, from)
  {
    var i := Find(s, sub, from).value;
    forall j: nat | j <= i
      ensures MatchAt(s + t, sub, j) == MatchAt(s, sub, j)
    {
      assert (s + t)[j..j + |sub|] == s[j..j + |sub|];
    }
    FindIs(s + t, sub, from, i);
  }

  predicate AllDigits(s: string) {
    forall i :: 0 <= i < |s| ==> '0' <= s[i] <= '9'
  }

  function DigitValue(c: char): nat
    requires '0' <= c <= '9'
  {
    c as nat - '0' as nat
  }

  /** The number a digit string denotes, read left to right after `acc`. */
  function DecimalValue(s: string, acc: nat): nat
    requires AllDigits(s)
  {
    if s == "" then acc else DecimalValue(s[1..], acc * 10 + DigitValue(s[0]))
  }

  function DigitChar(d: nat): (c: char)
    requires d < 10
    ensures '0' <= c <= '9' && DigitValue(c) == d
  {
    '0' + d as char
  }

  /** `std::to_string` on a non-negative number. */
  function ToDecimal(n: nat): (s: string)
    ensures AllDigits(s) && s != ""
  {
    if n < 10 then [DigitChar(n)] else ToDecimal(n / 10) + [DigitChar(n % 10)]
  }

  lemma {:induction false} DecimalValueSnoc(s: string, c: char, acc: nat)
    requires AllDigits(s) && '0' <= c <= '9'
    ensures DecimalValue(s + [c], acc) == DecimalValue(s, acc) * 10 + DigitValue(c)
    decreases |s|
  {
    if s == "" {
      assert (s + [c])[1..] == "";
    } else {
      assert (s + [c])[1..] == s[1..] + [c];
      DecimalValueSnoc(s[1..], c, acc * 10 + DigitValue(s[0]));
    }
  }

  /** Reading back what `std::to_string` wrote. */
  lemma {:induction false} DecimalRoundTrip(n: nat)
    ensures DecimalValue(ToDecimal(n), 0) == n
  {
    if n >= 10 {
      DecimalRoundTrip(n / 10);
      DecimalValueSnoc(ToDecimal(n / 10), DigitChar(n % 10), 0);
    }
  }
}
