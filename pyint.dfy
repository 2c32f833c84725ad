/**
  Python's `int(s)` for a string `s` in base 10, as the sensor endpoint
  relies on it: surrounding whitespace is ignored, one optional sign, then
  decimal digits in which single underscores may separate digits; anything
  else raises ValueError (here: None).
*/
module PyInt {
  import opened Options

  /** Whitespace that `int()` strips: space, \t \n \v \f \r and \x1c-\x1f. */
  predicate IsSpace(c: char) {
    c == ' ' || ('\t' <= c <= '\r') || ('\U{1C}' <= c <= '\U{1F}')
  }

  predicate IsDigit(c: char) { '0' <= c <= '9' }

  predicate AllSpace(s: string) {
    forall k :: 0 <= k < |s| ==> IsSpace(s[k])
  }

  /** `s` without its leading whitespace: a suffix of s, after whitespace only. */
  function StripLeft(s: string): (r: string)
    ensures r == [] || !IsSpace(r[0])
  {
    if |s| > 0 && IsSpace(s[0]) then StripLeft(s[1..]) else s
  }

  /** `s` without its trailing whitespace: a prefix of s, followed by whitespace only. */
  function StripRight(s: string): (r: string)
    ensures r == [] || !IsSpace(r[|r| - 1])
  {
    if |s| > 0 && IsSpace(s[|s| - 1]) then StripRight(s[..|s| - 1]) else s
  }

  /** StripLeft removes the leading whitespace and nothing else. */
  lemma {:induction false} StripLeftSuffix(s: string)
    ensures |StripLeft(s)| <= |s|
    ensures StripLeft(s) == s[|s| - |StripLeft(s)|..]
    ensures AllSpace(s[..|s| - |StripLeft(s)|])
  {
    if |s| > 0 && IsSpace(s[0]) {
      StripLeftSuffix(s[1..]);
      var k := |s| - |StripLeft(s)|;
      assert s[1..][..k - 1] == s[1..k];
      assert forall i :: 1 <= i < k ==> s[..k][i] == s[1..][..k - 1][i - 1];
    }
  }

  /** StripRight removes the trailing whitespace and nothing else. */
  lemma {:induction false} StripRightPrefix(s: string)
    ensures |StripRight(s)| <= |s|
    ensures StripRight(s) == s[..|StripRight(s)|]
    ensures AllSpace(s[|StripRight(s)|..])
  {
    if |s| > 0 && IsSpace(s[|s| - 1]) {
      var init := s[..|s| - 1];
      StripRightPrefix(init);
      var k := |StripRight(s)|;
      assert init[k..] + [s[|s| - 1]] == s[k..];
    }
  }

  function Strip(s: string): string {
    StripRight(StripLeft(s))
  }

  /** Digits with single underscores between them, starting and ending with a digit. */
  predicate WellFormedDigits(s: string) {
    && |s| > 0 && IsDigit(s[0]) && IsDigit(s[|s| - 1])
    && (forall k :: 0 <= k < |s| ==> IsDigit(s[k]) || s[k] == '_')
    && (forall k :: 0 <= k < |s| - 1 && s[k] == '_' ==> s[k + 1] != '_')
  }

  function DropUnderscores(s: string): (r: string)
    ensures forall k :: 0 <= k < |s| && s[k] != '_' ==> s[k] in r
    ensures forall c :: c in r ==> c in s && c != '_'
  {
    if s == [] then []
    else (if s[0] == '_' then [] else [s[0]]) + DropUnderscores(s[1..])
  }

  /** Dropping underscores distributes over concatenation, so together with
      DropUnderscoresSingle it keeps the other characters in their order. */
  lemma {:induction false} DropUnderscoresConcat(a: string, b: string)
    ensures DropUnderscores(a + b) == DropUnderscores(a) + DropUnderscores(b)
  {
    if a == [] {
      assert a + b == b;
    } else {
      assert (a + b)[0] == a[0];
      assert (a + b)[1..] == a[1..] + b;
      DropUnderscoresConcat(a[1..], b);
    }
  }

  /** One character is dropped exactly when it is an underscore. */
  lemma DropUnderscoresSingle(c: char)
    ensures DropUnderscores([c]) == if c == '_' then [] else [c]
  {
    assert [c][1..] == [];
  }

  function DigitValue(c: char): nat
    requires IsDigit(c)
  {
    (c as int) - ('0' as int)
  }

  /** The number a string of decimal digits denotes. */
  function DigitsValue(s: string): nat
    requires forall c :: c in s ==> IsDigit(c)
  {
    if s == [] then 0 else 10 * DigitsValue(s[..|s| - 1]) + DigitValue(s[|s| - 1])
  }

  function ParseUnsigned(s: string): (r: Option<nat>)
    ensures r.Some? <==> WellFormedDigits(s)
  {
    if WellFormedDigits(s) then Some(DigitsValue(DropUnderscores(s))) else None
  }

  /** The stripped text starts with a sign. */
  predicate Signed(t: string) {
    |t| > 0 && (t[0] == '+' || t[0] == '-')
  }

  /** The stripped text without its sign. */
  function Magnitude(t: string): string {
    if Signed(t) then t[1..] else t
  }

  /** `int(s)`: None where Python raises ValueError. */
  function ParseInt(s: string): (r: Option<int>)
    ensures r.Some? <==> WellFormedDigits(Magnitude(Strip(s)))
    ensures r.Some? ==> ParseUnsigned(Magnitude(Strip(s))) == Some(if r.value < 0 then -r.value else r.value)
    ensures r.Some? && r.value < 0 ==> Strip(s)[0] == '-'
    ensures r.Some? && r.value > 0 && Signed(Strip(s)) ==> Strip(s)[0] == '+'
  {
    var t := Strip(s);
    if |t| > 0 && (t[0] == '+' || t[0] == '-') then
      match ParseUnsigned(t[1..])
      case None => None
      case Some(n) => Some(if t[0] == '-' then -(n as int) else n)
    else
      match ParseUnsigned(t)
      case None => None
      case Some(n) => Some(n)
  }

  function DigitChar(d: nat): (c: char)
    requires d < 10
    ensures IsDigit(c) && DigitValue(c) == d
  {
    ('0' as int + d) as char
  }

  /** The decimal digits of n, as `str` writes a natural number. */
  function Decimal(n: nat): (r: string)
    ensures |r| > 0
    ensures forall c :: c in r ==> IsDigit(c)
  {
    if n < 10 then [DigitChar(n)] else Decimal(n / 10) + [DigitChar(n % 10)]
  }

  /** `str(n)`. */
  function Show(n: int): string {
    if n < 0 then "-" + Decimal(-n) else Decimal(n)
  }

  lemma {:induction false} DecimalValue(n: nat)
    ensures DigitsValue(Decimal(n)) == n
  {
    if n >= 10 {
      var s := Decimal(n);
      assert s[..|s| - 1] == Decimal(n / 10);
      DecimalValue(n / 10);
    }
  }

  lemma {:induction false} DropUnderscoresNone(s: string)
    requires forall c :: c in s ==> IsDigit(c)
    ensures DropUnderscores(s) == s
  {
    if s != [] {
      assert s[0] in s;
      DropUnderscoresNone(s[1..]);
      assert s == [s[0]] + s[1..];
    }
  }

  lemma DecimalWellFormed(n: nat)
    ensures WellFormedDigits(Decimal(n))
    ensures StripLeft(Decimal(n)) == Decimal(n) && StripRight(Decimal(n)) == Decimal(n)
  {
    var s := Decimal(n);
    assert s[0] in s && s[|s| - 1] in s;
    assert forall k :: 0 <= k < |s| ==> s[k] in s;
  }

  lemma ParseDecimal(m: nat)
    ensures ParseUnsigned(Decimal(m)) == Some(m)
  {
    DecimalWellFormed(m);
    DecimalValue(m);
    DropUnderscoresNone(Decimal(m));
  }

  /** `int(str(n)) == n`. */
  lemma ParseShow(n: int)
    ensures ParseInt(Show(n)) == Some(n)
  {
    var m: nat := if n < 0 then -n else n;
    var d := Decimal(m);
    DecimalWellFormed(m);
    ParseDecimal(m);
    if n < 0 {
      var s := "-" + d;
      assert s[1..] == d;
      assert s[|s| - 1] == d[|d| - 1];
      assert StripLeft(s) == s;
      assert StripRight(s) == s;
      assert Strip(s) == s;
      assert Signed(s) && s[0] == '-';
      assert ParseUnsigned(s[1..]) == Some(m);
    } else {
      assert Strip(d) == d;
      assert !Signed(d);
    }
  }

  lemma {:induction false} StripLeftPadding(pad: string, s: string)
    requires AllSpace(pad)
    ensures StripLeft(pad + s) == StripLeft(s)
  {
    if pad != [] {
      assert (pad + s)[1..] == pad[1..] + s;
      StripLeftPadding(pad[1..], s);
    } else {
      assert pad + s == s;
    }
  }

  lemma {:induction false} StripRightPadding(s: string, pad: string)
    requires AllSpace(pad)
    ensures StripRight(s + pad) == StripRight(s)
  {
    if pad != [] {
      var p := pad[..|pad| - 1];
      assert (s + pad)[..|s + pad| - 1] == s + p;
      StripRightPadding(s, p);
    } else {
      assert s + pad == s;
    }
  }

  /** Stripping on the left does not look at the end of the string, unless
      everything is whitespace. */
  lemma {:induction false} StripLeftAppend(s: string, pad: string)
    requires StripLeft(s) != []
    ensures StripLeft(s + pad) == StripLeft(s) + pad
  {
    if IsSpace(s[0]) {
      assert (s + pad)[1..] == s[1..] + pad;
      StripLeftAppend(s[1..], pad);
    }
  }

  lemma {:induction false} StripLeftAllSpace(s: string)
    requires StripLeft(s) == []
    ensures AllSpace(s)
  {
    if s != [] {
      StripLeftAllSpace(s[1..]);
    }
  }

  lemma AllSpaceAppend(a: string, b: string)
    requires AllSpace(a) && AllSpace(b)
    ensures AllSpace(a + b)
  {
  }

  /** Whitespace around the text does not change what `int()` returns. */
  lemma ParseIntIgnoresPadding(before: string, s: string, after: string)
    requires AllSpace(before) && AllSpace(after)
    ensures ParseInt(before + s + after) == ParseInt(s)
  {
    assert before + s + after == before + (s + after);
    StripLeftPadding(before, s + after);
    if StripLeft(s) == [] {
      StripLeftAllSpace(s);
      AllSpaceAppend(s, after);
      StripLeftPadding(s + after, []);
      assert s + after + [] == s + after;
    } else {
      StripLeftAppend(s, after);
      StripRightPadding(StripLeft(s), after);
    }
    assert Strip(before + s + after) == Strip(s);
  }

  /** A fractional number is not an integer to `int()`. */
  lemma DecimalPointRejected(a: nat, b: nat)
    ensures ParseInt(Decimal(a) + "." + Decimal(b)) == None
  {
    var s := Decimal(a) + "." + Decimal(b);
    assert s[|Decimal(a)|] == '.';
    DecimalWellFormed(a);
    DecimalWellFormed(b);
    assert s[0] == Decimal(a)[0];
    assert s[|s| - 1] == Decimal(b)[|Decimal(b)| - 1];
    assert Strip(s) == s;
    assert !WellFormedDigits(s);
  }
}
