/** ECMAScript's `Number(string)` conversion (StringToNumber), as far as it
    decides whether a token of the `ids` parameter equals an integer id. */
module JsNumbers {
  import opened Options
  import opened Text

  /** The result of `Number(token)`: an integer, or anything that equals no
      integer (NaN, an infinity, a value with a fractional part). */
  datatype JsNumber = Int(value: int) | NotInteger

  /** The first index of a character from `marks`, or `|s|` if there is none. */
  function IndexOf(s: string, marks: set<char>): (k: nat)
    ensures k <= |s|
    ensures k < |s| ==> s[k] in marks
    ensures forall i :: 0 <= i < k ==> s[i] !in marks
  {
    if s == [] then 0 else if s[0] in marks then 0 else 1 + IndexOf(s[1..], marks)
  }

  function Pow10(e: nat): (p: nat)
    ensures p >= 1
  {
    if e == 0 then 1 else 10 * Pow10(e - 1)
  }

  /** The base a `0x`, `0o` or `0b` prefix selects, or 0 for any other character. */
  function RadixOf(c: char): nat
  {
    if c == 'x' || c == 'X' then 16
    else if c == 'o' || c == 'O' then 8
    else if c == 'b' || c == 'B' then 2
    else 0
  }

  /** The value of `c` as a digit, or `base` when `c` is not a digit of that base. */
  function DigitIn(c: char, base: nat): (d: nat)
    ensures d <= base
  {
    var v := if IsDigit(c) then DigitValue(c)
             else if 'a' <= c <= 'f' then c as int - 'a' as int + 10
             else if 'A' <= c <= 'F' then c as int - 'A' as int + 10
             else base;
    if v < base then v else base
  }

  /** A NonDecimalIntegerLiteral's digits after the prefix. */
  function RadixLiteral(digits: string, base: nat): JsNumber
  {
    if digits == [] then NotInteger
    else if forall i :: 0 <= i < |digits| ==> DigitIn(digits[i], base) < base then Int(RadixValue(digits, base))
    else NotInteger
  }

  function RadixValue(digits: string, base: nat): nat
  {
    if digits == [] then 0
    else RadixValue(digits[..|digits| - 1], base) * base + DigitIn(digits[|digits| - 1], base)
  }

  /** The value `v * 10^shift`, which is an integer unless the shift cuts off non-zero digits. */
  function Scale(v: nat, shift: int): JsNumber
  {
    if shift >= 0 then Int(v * Pow10(shift))
    else if v % Pow10(-shift) == 0 then Int(v / Pow10(-shift))
    else NotInteger
  }

  /** A SignedInteger of an ExponentPart. */
  function SignedInteger(s: string): Option<int>
  {
    var neg := s != [] && s[0] == '-';
    var digits := if s != [] && (s[0] == '-' || s[0] == '+') then s[1..] else s;
    if digits == [] || !AllDigits(digits) then None
    else
      var v: int := DecimalValue(digits);
      Some(if neg then -v else v)
  }

  /** A StrUnsignedDecimalLiteral: `Infinity`, or digits with an optional
      fraction and an optional exponent. */
  function UnsignedDecimal(u: string): JsNumber
  {
    if u == "Infinity" then NotInteger
    else
      var e := IndexOf(u, {'e', 'E'});
      var mantissa := u[..e];
      var exponent := if e < |u| then SignedInteger(u[e + 1..]) else Some(0);
      var dot := IndexOf(mantissa, {'.'});
      var whole := mantissa[..dot];
      var fraction := if dot < |mantissa| then mantissa[dot + 1..] else "";
      if !AllDigits(whole) || !AllDigits(fraction) || (whole == [] && fraction == []) || exponent.None? then
        NotInteger
      else
        Scale(DecimalValue(whole + fraction), exponent.value - |fraction|)
  }

  function Negate(n: JsNumber): JsNumber
  {
    match n
    case Int(v) => Int(-v)
    case NotInteger => NotInteger
  }

  /** A non-empty run of decimal digits is a StrUnsignedDecimalLiteral with its decimal value. */
  lemma UnsignedDecimalOfDigits(s: string)
    requires s != [] && AllDigits(s)
    ensures UnsignedDecimal(s) == Int(DecimalValue(s))
  {
    assert s != "Infinity" by { assert IsDigit(s[0]); }
    assert forall i :: 0 <= i < |s| ==> s[i] !in {'e', 'E'} && s[i] !in {'.'} by {
      forall i | 0 <= i < |s| ensures s[i] !in {'e', 'E'} && s[i] !in {'.'} { assert IsDigit(s[i]); }
    }
    var e := IndexOf(s, {'e', 'E'});
    assert e == |s|;
    assert s[..e] == s;
    var dot := IndexOf(s, {'.'});
    assert dot == |s|;
    assert s[..dot] + "" == s;
  }

  /** Digits are not white space, so `trim` leaves a numeral unchanged. */
  lemma TrimNumeral(s: string)
    requires AllDigits(s)
    ensures Trim(s) == s
  {
    forall i | 0 <= i < |s| ensures !IsJsWhiteSpace(s[i]) { assert IsDigit(s[i]); }
  }

  /** The StringNumericLiteral grammar on a token already stripped of white
      space: empty is 0, then a radix literal, a signed or an unsigned decimal. */
  function NumericLiteral(t: string): JsNumber
  {
    if t == [] then Int(0)
    else if |t| >= 2 && t[0] == '0' && RadixOf(t[1]) != 0 then RadixLiteral(t[2..], RadixOf(t[1]))
    else if t[0] == '+' then UnsignedDecimal(t[1..])
    else if t[0] == '-' then Negate(UnsignedDecimal(t[1..]))
    else UnsignedDecimal(t)
  }

  /** After `trim`, the token starts with a character that no numeric literal
      starts with: not a digit, a sign or a decimal point. */
  predicate StartsNonNumeric(token: string)
  {
    var t := Trim(token);
    t != [] && !IsDigit(t[0]) && t[0] != '+' && t[0] != '-' && t[0] != '.'
  }

  /** After `trim`, the token is a run of `n` digits followed by a character
      that cannot continue a numeral: not a digit, a point or an exponent
      mark, and not the `x`, `o` or `b` of a `0x`, `0o` or `0b` prefix. */
  predicate DigitsThenJunk(token: string, n: nat)
  {
    var t := Trim(token);
    1 <= n < |t| && AllDigits(t[..n]) && !IsDigit(t[n]) && t[n] != '.' && t[n] != 'e' && t[n] != 'E' &&
    !(n == 1 && t[0] == '0' && RadixOf(t[1]) != 0)
  }

  /** `Number(token)`: white space around the literal is ignored, an empty or
      all-white-space token is 0, a run of decimal digits is its value (a
      leading zero included), and a token that starts like no numeric
      literal, such as "abc", or that has trailing junk after its digits,
      such as "1abc", is NaN. */
  function ToNumber(token: string): (r: JsNumber)
    ensures (forall i :: 0 <= i < |token| ==> IsJsWhiteSpace(token[i])) ==> r == Int(0)
    ensures token != [] && AllDigits(token) ==> r == Int(DecimalValue(token))
    ensures StartsNonNumeric(token) ==> r == NotInteger
    ensures forall n :: DigitsThenJunk(token, n) ==> r == NotInteger
  {
    if token != [] && AllDigits(token) then
      TrimNumeral(token);
      assert IsDigit(token[0]);
      assert |token| >= 2 ==> IsDigit(token[1]);
      UnsignedDecimalOfDigits(token);
      NumericLiteral(Trim(token))
    else if StartsNonNumeric(token) then
      NonNumericLiteral(Trim(token));
      NumericLiteral(Trim(token))
    else
      DigitsThenJunkIsNaN(token);
      NumericLiteral(Trim(token))
  }

  /** A literal whose first character is not a digit, a sign or a point is no
      numeral: either `Infinity`, or its mantissa is empty or starts with a non-digit. */
  lemma NonNumericLiteral(t: string)
    requires t != [] && !IsDigit(t[0]) && t[0] != '+' && t[0] != '-' && t[0] != '.'
    ensures NumericLiteral(t) == NotInteger
  {
    if t != "Infinity" {
      var e := IndexOf(t, {'e', 'E'});
      var mantissa := t[..e];
      if e > 0 {
        assert mantissa[0] == t[0];
        var dot := IndexOf(mantissa, {'.'});
        assert dot > 0;
        assert mantissa[..dot][0] == t[0];
      }
    }
  }

  /** Whatever the length of its digit run, a token with junk after it is NaN. */
  lemma DigitsThenJunkIsNaN(token: string)
    ensures forall n :: DigitsThenJunk(token, n) ==> NumericLiteral(Trim(token)) == NotInteger
  {
    forall n | DigitsThenJunk(token, n) ensures NumericLiteral(Trim(token)) == NotInteger {
      DigitsThenJunkLiteral(Trim(token), n);
    }
  }

  /** Digits followed by a character that cannot continue a numeral make no
      numeral: the exponent mark and the point, if any, come after that character,
      so the whole-number part contains it. */
  lemma DigitsThenJunkLiteral(t: string, n: nat)
    requires 1 <= n < |t| && AllDigits(t[..n]) && !IsDigit(t[n]) && t[n] != '.' && t[n] != 'e' && t[n] != 'E'
    requires !(n == 1 && t[0] == '0' && RadixOf(t[1]) != 0)
    ensures NumericLiteral(t) == NotInteger
  {
    assert IsDigit(t[..n][0]);
    assert n >= 2 ==> IsDigit(t[..n][1]);
    assert t != "Infinity";
    var e := IndexOf(t, {'e', 'E'});
    assert forall i :: 0 <= i < n ==> IsDigit(t[..n][i]) && t[..n][i] == t[i];
    assert e > n;
    var mantissa := t[..e];
    var dot := IndexOf(mantissa, {'.'});
    assert forall i :: 0 <= i <= n ==> mantissa[i] == t[i];
    assert dot > n;
    assert mantissa[..dot][n] == t[n];
  }

  /** White space around a token does not change its value. */
  lemma ToNumberIgnoresPadding(pre: string, token: string, post: string)
    requires forall k :: 0 <= k < |pre| ==> IsJsWhiteSpace(pre[k])
    requires forall k :: 0 <= k < |post| ==> IsJsWhiteSpace(post[k])
    ensures ToNumber(pre + token + post) == ToNumber(token)
  {
    TrimIgnoresPadding(pre, token, post);
  }

  /** "1abc" is NaN: `Number` does not stop at the digits as `parseInt` would. */
  lemma DigitsWithJunkIsNaN()
    ensures ToNumber("1abc") == NotInteger
  {
    assert Trim("1abc") == "1abc";
    assert DigitsThenJunk("1abc", 1);
  }

  /** Converting the decimal rendering of a non-negative integer gives that integer back. */
  lemma NumberOfNatToString(n: nat)
    ensures ToNumber(NatToString(n)) == Int(n)
  {
    DecimalValueOfNatToString(n);
  }
}
