/** Small helpers shared by the model: an optional value, Ruby's
    `Integer#to_s` (used to build store keys from ids and time buckets),
    ActiveSupport's `blank?` on strings and Ruby's `String#strip`. */
module Common {

  datatype Option<+T> = None | Some(value: T)

  predicate IsDigit(c: char) { '0' <= c <= '9' }

  function DigitChar(d: nat): (c: char)
    requires d < 10
    ensures IsDigit(c)
  {
    (48 + d) as char
  }

  /** Decimal rendering of a natural number, most significant digit first. */
  function Digits(n: nat): (s: string)
    ensures 1 <= |s|
    ensures n < 10 <==> |s| == 1
    ensures forall i :: 0 <= i < |s| ==> IsDigit(s[i])
  {
    if n < 10 then [DigitChar(n)] else Digits(n / 10) + [DigitChar(n % 10)]
  }

  /** Two numbers render alike only if they are equal, so keys that embed
      them are distinct for distinct numbers. */
  lemma {:induction false} DigitsInjective(a: nat, b: nat)
    requires Digits(a) == Digits(b)
    ensures a == b
  {
    if a >= 10 && b >= 10 {
      var da, db := Digits(a), Digits(b);
      assert da[..|da| - 1] == Digits(a / 10);
      assert db[..|db| - 1] == Digits(b / 10);
      DigitsInjective(a / 10, b / 10);
      assert DigitChar(a % 10) == da[|da| - 1];
      assert DigitChar(b % 10) == db[|db| - 1];
    } else if a < 10 && b < 10 {
      assert DigitChar(a) == Digits(a)[0];
      assert DigitChar(b) == Digits(b)[0];
    }
  }

  /** Ruby's `Integer#to_s`: a minus sign, then the digits of the magnitude. */
  function IntToString(i: int): (s: string)
    ensures |s| >= 1
    ensures forall k :: 0 <= k < |s| ==> s[k] == '-' || IsDigit(s[k])
    ensures i < 0 <==> s[0] == '-'
  {
    if i < 0 then "-" + Digits(-i) else Digits(i)
  }

  lemma IntToStringInjective(a: int, b: int)
    requires IntToString(a) == IntToString(b)
    ensures a == b
  {
    var s := IntToString(a);
    if a < 0 {
      assert Digits(-a) == s[1..] == Digits(-b);
      DigitsInjective(-a, -b);
    } else {
      DigitsInjective(a, b);
    }
  }

  /** Keys that start with two prefixes which differ at a position inside
      both of them are different keys. */
  lemma PrefixesDiffer(p: string, q: string, k1: string, k2: string, i: nat)
    requires p <= k1 && q <= k2
    requires i < |p| && i < |q| && p[i] != q[i]
    ensures k1 != k2
  {
    assert k1[i] == p[i] && k2[i] == q[i];
  }

  /** In `a + ":" + x` with no colon in `a`, the first colon sits at `|a|`. */
  lemma FirstColon(a: string, x: string)
    requires ':' !in a
    ensures (a + ":" + x)[|a|] == ':'
    ensures forall i :: 0 <= i < |a| ==> (a + ":" + x)[i] != ':'
  {
    forall i | 0 <= i < |a| ensures (a + ":" + x)[i] != ':' {
      assert (a + ":" + x)[i] == a[i];
    }
  }

  /** If `a` and `b` contain no colon, `a + ":" + x` determines `a` and `x`. */
  lemma ColonSplit(a: string, x: string, b: string, y: string)
    requires ':' !in a && ':' !in b
    requires a + ":" + x == b + ":" + y
    ensures a == b && x == y
  {
    var l, r := a + ":" + x, b + ":" + y;
    FirstColon(a, x);
    FirstColon(b, y);
    assert |a| == |b|;
    assert a == l[..|a|] == r[..|b|] == b;
    assert x == l[|a| + 1..] == r[|b| + 1..] == y;
  }

  /** The characters ActiveSupport's `blank?` treats as white space
      (the ASCII part of `[[:space:]]`). */
  predicate IsSpace(c: char) {
    c == ' ' || c == '\t' || c == '\n' || c == '\U{B}' || c == '\U{C}' || c == '\r'
  }

  /** `String#blank?`: empty or white space only. */
  predicate IsBlank(s: string) {
    forall i :: 0 <= i < |s| ==> IsSpace(s[i])
  }

  /** `nil.blank?` is true; a string is blank as above. */
  predicate IsBlankOpt(s: Option<string>) {
    s.None? || IsBlank(s.value)
  }

  /** The characters `String#strip` removes: white space and NUL. */
  predicate Strippable(c: char) { c == '\0' || IsSpace(c) }

  predicate AllStrippable(s: string) {
    forall i :: 0 <= i < |s| ==> Strippable(s[i])
  }

  /** `s` without its leading white space and NUL characters: a suffix of
      `s` whose cut-off prefix is all strippable. */
  function StripLeft(s: string): (r: string)
    ensures |r| <= |s| && r == s[|s| - |r|..]
    ensures AllStrippable(s[..|s| - |r|])
    ensures |r| == 0 || !Strippable(r[0])
  {
    if |s| > 0 && Strippable(s[0]) then
      var r := StripLeft(s[1..]);
      assert s[..|s| - |r|] == [s[0]] + s[1..][..|s| - 1 - |r|];
      r
    else
      s
  }

  /** `s` without its trailing white space and NUL characters: a prefix of
      `s` whose cut-off suffix is all strippable. */
  function StripRight(s: string): (r: string)
    ensures |r| <= |s| && r == s[..|r|]
    ensures AllStrippable(s[|r|..])
    ensures |r| == 0 || !Strippable(r[|r| - 1])
  {
    if |s| > 0 && Strippable(s[|s| - 1]) then
      var r := StripRight(s[..|s| - 1]);
      assert s[|r|..] == s[..|s| - 1][|r|..] + [s[|s| - 1]];
      r
    else
      s
  }

  /** Ruby's `String#strip`: the input without its leading and trailing
      white space and NUL characters. */
  function Strip(s: string): (r: string)
    ensures |r| == 0 || (!Strippable(r[0]) && !Strippable(r[|r| - 1]))
    ensures exists p, q :: s == p + r + q && AllStrippable(p) && AllStrippable(q)
  {
    var l := StripLeft(s);
    var r := StripRight(l);
    var p := s[..|s| - |l|];
    var q := l[|r|..];
    assert s == p + r + q;
    r
  }

  /** Ruby's `Array#join(sep)`. */
  function Join(parts: seq<string>, sep: string): (s: string)
    ensures |parts| == 1 ==> s == parts[0]
    ensures parts == [] ==> s == ""
  {
    if |parts| == 0 then ""
    else if |parts| == 1 then parts[0]
    else parts[0] + sep + Join(parts[1..], sep)
  }
}
