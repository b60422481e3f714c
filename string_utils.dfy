/**
 * The string helpers osm2type.cpp relies on: the C library's `atoi`, the
 * full-string integer parses behind `strings::is_number` and
 * `strings::to_uint64`, the `int8_t` conversion of an `int`, `my::clamp`,
 * `std::string::find` used as a substring test, and
 * `strings::SimpleTokenizer`. Their own source files are not part of this
 * model; each is written out here from the behaviour of the C library
 * routine it wraps.
 */
module StringUtils {
  import opened Wrappers

  predicate IsDigit(c: char) { '0' <= c <= '9' }

  /** The characters C's `isspace` accepts in the "C" locale. */
  predicate IsSpace(c: char) {
    c == ' ' || c == '\t' || c == '\n' || c == '\r' || c == '\U{0B}' || c == '\U{0C}'
  }

  predicate AllDigits(s: string) {
    forall i :: 0 <= i < |s| ==> IsDigit(s[i])
  }

  /** Decimal value of a string of digits, read most significant first. */
  function DigitsValue(s: string): (n: nat)
    requires AllDigits(s)
    decreases |s|
  {
    if s == [] then 0
    else DigitsValue(s[..|s| - 1]) * 10 + (s[|s| - 1] as int - '0' as int)
  }

  /** Leading white space skipped, as strtol, strtoull and atoi do. */
  function SkipSpaces(s: string): (r: string)
    ensures |r| <= |s| && r == s[|s| - |r|..]
    ensures r == [] || !IsSpace(r[0])
    decreases |s|
  {
    if s != [] && IsSpace(s[0]) then SkipSpaces(s[1..]) else s
  }

  /** An optional sign: whether it was '-', and what follows it. */
  function SplitSign(s: string): (bool, string) {
    if s != [] && (s[0] == '-' || s[0] == '+') then (s[0] == '-', s[1..]) else (false, s)
  }

  /** Length of the longest prefix of `s` made of digits. */
  function DigitSpan(s: string): (n: nat)
    ensures n <= |s| && AllDigits(s[..n])
    ensures n < |s| ==> !IsDigit(s[n])
    decreases |s|
  {
    if s != [] && IsDigit(s[0]) then 1 + DigitSpan(s[1..]) else 0
  }

  /**
   * A whole-string integer parse in the manner of strtoll with its end
   * pointer checked: white space, an optional sign, at least one digit and
   * nothing after the digits. `None` when the string is not such a number.
   */
  function ParseInteger(s: string): (r: Option<int>)
    ensures r.Some? <==>
      (var body := SplitSign(SkipSpaces(s)).1; body != [] && AllDigits(body))
  {
    var (neg, body) := SplitSign(SkipSpaces(s));
    var n := DigitSpan(body);
    if n == 0 || n < |body| then None
    else
      assert body[..n] == body;
      Some(if neg then -(DigitsValue(body) as int) else DigitsValue(body))
  }

  /** `strings::is_number`: the string is an integer literal as a whole. */
  predicate IsNumber(s: string) {
    ParseInteger(s).Some?
  }

  /** What `SkipSpaces` drops is white space. */
  lemma {:induction false} SkipSpacesDropsSpaces(s: string)
    ensures forall i :: 0 <= i < |s| - |SkipSpaces(s)| ==> IsSpace(s[i])
    decreases |s|
  {
    if s != [] && IsSpace(s[0]) {
      SkipSpacesDropsSpaces(s[1..]);
      assert forall i :: 1 <= i < |s| ==> s[i] == s[1..][i - 1];
    }
  }

  /** A whole-string integer is made of white space, signs and digits only. */
  lemma NumberCharacters(s: string)
    requires IsNumber(s)
    ensures forall i :: 0 <= i < |s| ==> IsDigit(s[i]) || IsSpace(s[i]) || s[i] == '-' || s[i] == '+'
  {
    var r := SkipSpaces(s);
    var d := |s| - |r|;
    SkipSpacesDropsSpaces(s);
    SignedDigitsCharacters(r);
    forall i | 0 <= i < |s|
      ensures IsDigit(s[i]) || IsSpace(s[i]) || s[i] == '-' || s[i] == '+'
    {
      if i >= d {
        assert s[i] == r[i - d];
      }
    }
  }

  /** An optional sign followed by digits is made of signs and digits only. */
  lemma SignedDigitsCharacters(s: string)
    requires AllDigits(SplitSign(s).1)
    ensures forall i :: 0 <= i < |s| ==> IsDigit(s[i]) || s[i] == '-' || s[i] == '+'
  {
    var body := SplitSign(s).1;
    if s != [] && (s[0] == '-' || s[0] == '+') {
      assert forall i :: 1 <= i < |s| ==> s[i] == body[i - 1];
    }
  }

  /** A non-empty run of digits is a whole-string integer. */
  lemma DigitsAreNumber(s: string)
    requires s != [] && AllDigits(s)
    ensures IsNumber(s)
  {
    assert SkipSpaces(s) == s;
    assert SplitSign(s).1 == s;
  }

  const MaxUInt64: nat := 0xFFFF_FFFF_FFFF_FFFF

  /**
   * `strings::to_uint64`: strtoull over the whole string. strtoull saturates
   * on overflow and negates a '-' literal modulo 2^64.
   */
  function ToUInt64(s: string): (r: Option<nat>)
    ensures r.Some? <==> IsNumber(s)
    ensures r.Some? ==> r.value <= MaxUInt64
    ensures r.Some? ==> var x: int := ParseInteger(s).value;
      && (0 <= x <= MaxUInt64 ==> r.value == x)
      && (-(MaxUInt64 as int) <= x < 0 ==> r.value == MaxUInt64 + 1 + x)
      && (x > MaxUInt64 || x < -(MaxUInt64 as int) ==> r.value == MaxUInt64)
  {
    match ParseInteger(s)
    case None => None
    case Some(x) =>
      if x >= 0 then Some(if x > MaxUInt64 then MaxUInt64 else x)
      else Some(if -x > MaxUInt64 then MaxUInt64 else (MaxUInt64 + 1 + x) % (MaxUInt64 + 1))
  }

  /**
   * C's `atoi`: white space, an optional sign and the longest run of digits
   * that follows; anything after it is ignored and no digits give 0. The
   * undefined result on overflow is not modelled: the value is unbounded.
   */
  function Atoi(s: string): int {
    var (neg, body) := SplitSign(SkipSpaces(s));
    var digits := body[..DigitSpan(body)];
    if neg then -(DigitsValue(digits) as int) else DigitsValue(digits)
  }

  /** On a well-formed integer literal, atoi and the whole-string parse agree. */
  lemma AtoiAgreesWithParse(s: string)
    requires ParseInteger(s).Some?
    ensures Atoi(s) == ParseInteger(s).value
  {
    var body := SplitSign(SkipSpaces(s)).1;
    assert DigitSpan(body) == |body|;
    assert body[..DigitSpan(body)] == body;
  }

  /** atoi stops at the first character that is not a digit. */
  lemma {:induction false} AtoiStopsAtNonDigit(d: string, rest: string)
    requires d != [] && IsDigit(d[0]) && AllDigits(d)
    requires rest == [] || !IsDigit(rest[0])
    ensures Atoi(d + rest) == DigitsValue(d)
  {
    DigitSpanOfDigits(d, rest);
    assert SkipSpaces(d + rest) == d + rest by { assert !IsSpace((d + rest)[0]); }
    assert SplitSign(d + rest) == (false, d + rest);
    assert (d + rest)[..|d|] == d;
  }

  lemma {:induction false} DigitSpanOfDigits(d: string, rest: string)
    requires AllDigits(d)
    requires rest == [] || !IsDigit(rest[0])
    ensures DigitSpan(d + rest) == |d|
    decreases |d|
  {
    if d == [] {
      assert d + rest == rest;
    } else {
      assert (d + rest)[1..] == d[1..] + rest;
      DigitSpanOfDigits(d[1..], rest);
    }
  }

  /**
   * The conversion of an `int` to `int8_t` on assignment: the value modulo
   * 2^8, read in two's complement.
   */
  function ToInt8(x: int): (r: int)
    ensures -128 <= r <= 127 && (x - r) % 256 == 0
    ensures -128 <= x <= 127 ==> r == x
  {
    (x + 128) % 256 - 128
  }

  /** `my::clamp`: the value forced into [lo, hi]. */
  function Clamp(x: int, lo: int, hi: int): (r: int)
    requires lo <= hi
    ensures lo <= r <= hi
    ensures lo <= x <= hi ==> r == x
    ensures x < lo ==> r == lo
    ensures hi < x ==> r == hi
  {
    if x < lo then lo else if hi < x then hi else x
  }

  /** `s.find(sub) != npos`: `sub` occurs somewhere in `s`. */
  predicate Contains(s: string, sub: string)
    decreases |s|
  {
    if |s| < |sub| then false
    else s[..|sub|] == sub || Contains(s[1..], sub)
  }

  /** An occurrence at any position is found. */
  lemma {:induction false} ContainsAt(s: string, sub: string, i: nat)
    requires i + |sub| <= |s| && s[i..i + |sub|] == sub
    ensures Contains(s, sub)
    decreases i
  {
    if i > 0 {
      assert s[1..][i - 1..i - 1 + |sub|] == s[i..i + |sub|];
      ContainsAt(s[1..], sub, i - 1);
    }
  }

  /** ... and nothing is found that does not occur. */
  lemma {:induction false} ContainsWitness(s: string, sub: string) returns (i: nat)
    requires Contains(s, sub)
    ensures i + |sub| <= |s| && s[i..i + |sub|] == sub
    decreases |s|
  {
    if s[..|sub|] == sub {
      i := 0;
    } else {
      var j := ContainsWitness(s[1..], sub);
      assert s[j + 1..j + 1 + |sub|] == s[1..][j..j + |sub|];
      i := j + 1;
    }
  }

  /** The separators `SimpleTokenizer(k, "\t :")` splits on. */
  predicate IsDelimiter(c: char) { c == '\t' || c == ' ' || c == ':' }

  predicate NoDelimiter(s: string) {
    forall i :: 0 <= i < |s| ==> !IsDelimiter(s[i])
  }

  function FirstDelimiter(s: string): (i: nat)
    ensures i <= |s| && NoDelimiter(s[..i])
    ensures i < |s| ==> IsDelimiter(s[i])
    decreases |s|
  {
    if s == [] then 0
    else if IsDelimiter(s[0]) then 0
    else 1 + FirstDelimiter(s[1..])
  }

  /**
   * The tokens `SimpleTokenizer` yields: the maximal delimiter-free pieces,
   * in order, with the empty pieces between adjacent delimiters skipped.
   */
  function Tokens(s: string): (r: seq<string>)
    ensures forall j :: 0 <= j < |r| ==> r[j] != [] && NoDelimiter(r[j])
    decreases |s|
  {
    var i := FirstDelimiter(s);
    var rest := if i < |s| then Tokens(s[i + 1..]) else [];
    (if i == 0 then [] else [s[..i]]) + rest
  }

  /** A delimiter-free word followed by a delimiter is the first token. */
  lemma TokensCons(a: string, d: char, b: string)
    requires a != [] && NoDelimiter(a) && IsDelimiter(d)
    ensures Tokens(a + [d] + b) == [a] + Tokens(b)
  {
    var s := a + [d] + b;
    FirstDelimiterOf(a, [d] + b);
    assert s == a + ([d] + b);
    assert s[..|a|] == a;
    assert s[|a| + 1..] == b;
  }

  /** Two words joined by one delimiter are two tokens. */
  lemma TokensPair(a: string, d: char, b: string)
    requires a != [] && NoDelimiter(a) && IsDelimiter(d)
    requires b != [] && NoDelimiter(b)
    ensures Tokens(a + [d] + b) == [a, b]
  {
    TokensCons(a, d, b);
    TokensSingle(b);
  }

  /** A non-empty delimiter-free string is a single token. */
  lemma TokensSingle(a: string)
    requires a != [] && NoDelimiter(a)
    ensures Tokens(a) == [a]
  {
    FirstDelimiterOf(a, []);
    assert a + [] == a;
  }

  lemma {:induction false} FirstDelimiterOf(a: string, b: string)
    requires NoDelimiter(a)
    requires b == [] || IsDelimiter(b[0])
    ensures FirstDelimiter(a + b) == |a|
    decreases |a|
  {
    if a == [] {
      assert a + b == b;
    } else {
      assert (a + b)[1..] == a[1..] + b;
      FirstDelimiterOf(a[1..], b);
    }
  }
}
