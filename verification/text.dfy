/**
 * Python `str` operations used by the cleaning pipeline: strip, lower,
 * title, digit extraction, character deletion, substring search and the
 * part of `float()` that turns decimal text into a number.
 *
 * Case mapping and digit classes are ASCII only: a non-ASCII character is
 * treated as uncased and as a non-digit.
 */
module Text {

  datatype Option<+T> = None | Some(value: T)

  // ---------------------------------------------------------------------
  // Character classes

  /** The characters Python's `str.isspace()` accepts, which `str.strip()` removes. */
  predicate IsSpace(c: char) {
    c == ' ' || '\t' <= c <= '\r' || '\U{1c}' <= c <= '\U{1f}'
    || c == '\U{85}' || c == '\U{a0}' || c == '\U{1680}'
    || '\U{2000}' <= c <= '\U{200a}' || c == '\U{2028}' || c == '\U{2029}'
    || c == '\U{202f}' || c == '\U{205f}' || c == '\U{3000}'
  }

  predicate IsUpper(c: char) { 'A' <= c <= 'Z' }

  predicate IsLower(c: char) { 'a' <= c <= 'z' }

  /** A cased character, in Python's sense, restricted to ASCII. */
  predicate IsLetter(c: char) { IsUpper(c) || IsLower(c) }

  predicate IsDigit(c: char) { '0' <= c <= '9' }

  predicate AllDigits(s: string) { forall i :: 0 <= i < |s| ==> IsDigit(s[i]) }

  predicate HasUpper(s: string) { exists i :: 0 <= i < |s| && IsUpper(s[i]) }

  function LowerChar(c: char): char {
    if IsUpper(c) then (c as int + 32) as char else c
  }

  function UpperChar(c: char): char {
    if IsLower(c) then (c as int - 32) as char else c
  }

  // ---------------------------------------------------------------------
  // strip()

  /** Drops the longest whitespace prefix. */
  function TrimStart(s: string): (r: string)
    ensures |r| <= |s|
  {
    if |s| > 0 && IsSpace(s[0]) then TrimStart(s[1..]) else s
  }

  /** What TrimStart drops is whitespace, and what it keeps is a suffix that does not start with whitespace. */
  lemma {:induction false} TrimStartShape(s: string)
    ensures TrimStart(s) == s[|s| - |TrimStart(s)|..]
    ensures forall k :: 0 <= k < |s| - |TrimStart(s)| ==> IsSpace(s[k])
    ensures TrimStart(s) != [] ==> !IsSpace(TrimStart(s)[0])
  {
    if |s| > 0 && IsSpace(s[0]) {
      TrimStartShape(s[1..]);
    }
  }

  /** Drops the longest whitespace suffix. */
  function TrimEnd(s: string): (r: string)
    ensures |r| <= |s|
  {
    if |s| > 0 && IsSpace(s[|s| - 1]) then TrimEnd(s[..|s| - 1]) else s
  }

  /** What TrimEnd drops is whitespace, and what it keeps is a prefix that does not end with whitespace. */
  lemma {:induction false} TrimEndShape(s: string)
    ensures TrimEnd(s) == s[..|TrimEnd(s)|]
    ensures forall k :: |TrimEnd(s)| <= k < |s| ==> IsSpace(s[k])
    ensures TrimEnd(s) != [] ==> !IsSpace(TrimEnd(s)[|TrimEnd(s)| - 1])
  {
    if |s| > 0 && IsSpace(s[|s| - 1]) {
      TrimEndShape(s[..|s| - 1]);
    }
  }

  /** Python's `str.strip()` with no argument. */
  function Strip(s: string): (r: string)
    ensures Stripped(r) && |r| <= |s|
  {
    var a := TrimStart(s);
    TrimStartShape(s);
    TrimEndShape(a);
    assert TrimEnd(a) != [] ==> TrimEnd(a)[0] == a[0];
    TrimEnd(a)
  }

  /** A string that neither starts nor ends with whitespace. */
  predicate Stripped(s: string) {
    s == [] || (!IsSpace(s[0]) && !IsSpace(s[|s| - 1]))
  }

  /** strip() keeps a contiguous middle part and removes only whitespace around it. */
  lemma StripShape(s: string)
    ensures Stripped(Strip(s))
    ensures exists i, j :: 0 <= i <= j <= |s| && Strip(s) == s[i..j]
              && (forall k :: 0 <= k < i ==> IsSpace(s[k]))
              && (forall k :: j <= k < |s| ==> IsSpace(s[k]))
  {
    var a := TrimStart(s);
    var b := TrimEnd(a);
    var i := |s| - |a|;
    var j := i + |b|;
    assert Stripped(Strip(s)) by {
      TrimStartShape(s);
      TrimEndShape(a);
      if b != [] {
        assert b[0] == a[0] && !IsSpace(a[0]);
      }
    }
    assert 0 <= i <= j <= |s| && Strip(s) == s[i..j]
      && (forall k :: 0 <= k < i ==> IsSpace(s[k]))
      && (forall k :: j <= k < |s| ==> IsSpace(s[k]))
    by {
      TrimStartShape(s);
      TrimEndShape(a);
      assert a == s[i..] && b == a[..|b|];
      forall k | j <= k < |s| ensures IsSpace(s[k]) {
        assert s[k] == a[k - i];
      }
    }
  }

  lemma TrimStartOfStripped(s: string)
    requires Stripped(s)
    ensures TrimStart(s) == s
  {
  }

  lemma TrimEndOfStripped(s: string)
    requires Stripped(s)
    ensures TrimEnd(s) == s
  {
  }

  /** A stripped string is left alone by strip(). */
  lemma StripOfStripped(s: string)
    requires Stripped(s)
    ensures Strip(s) == s
  {
    TrimStartOfStripped(s);
    TrimEndOfStripped(s);
  }

  lemma {:induction false} TrimStartExactly(s: string, i: nat)
    requires i <= |s| && forall k :: 0 <= k < i ==> IsSpace(s[k])
    requires i < |s| ==> !IsSpace(s[i])
    ensures TrimStart(s) == s[i..]
  {
    if i > 0 {
      TrimStartExactly(s[1..], i - 1);
      assert s[1..][i - 1..] == s[i..];
    }
  }

  lemma {:induction false} TrimEndExactly(s: string, j: nat)
    requires j <= |s| && forall k :: j <= k < |s| ==> IsSpace(s[k])
    requires j > 0 ==> !IsSpace(s[j - 1])
    ensures TrimEnd(s) == s[..j]
    decreases |s| - j
  {
    if j < |s| {
      var init := s[..|s| - 1];
      TrimEndExactly(init, j);
      assert init[..j] == s[..j];
    }
  }

  /** strip() of a text with `i` leading and `|s| - j` trailing blanks around a part that starts and ends with a non-blank. */
  lemma StripExactly(s: string, i: nat, j: nat)
    requires i < j <= |s|
    requires forall k :: 0 <= k < i ==> IsSpace(s[k])
    requires forall k :: j <= k < |s| ==> IsSpace(s[k])
    requires !IsSpace(s[i]) && !IsSpace(s[j - 1])
    ensures Strip(s) == s[i..j]
  {
    assert TrimStart(s) == s[i..] by {
      TrimStartExactly(s, i);
    }
    assert TrimEnd(s[i..]) == s[i..j] by {
      SuffixBlanks(s, i, j);
    }
  }

  lemma SuffixBlanks(s: string, i: nat, j: nat)
    requires i < j <= |s|
    requires forall k :: j <= k < |s| ==> IsSpace(s[k])
    requires !IsSpace(s[j - 1])
    ensures TrimEnd(s[i..]) == s[i..j]
  {
    var t := s[i..];
    forall k | j - i <= k < |t| ensures IsSpace(t[k]) {
      assert t[k] == s[i + k];
    }
    assert t[j - i - 1] == s[j - 1];
    TrimEndExactly(t, j - i);
    assert t[..j - i] == s[i..j];
  }

  lemma StripIdempotent(s: string)
    ensures Strip(Strip(s)) == Strip(s)
  {
    StripShape(s);
    StripOfStripped(Strip(s));
  }

  // ---------------------------------------------------------------------
  // lower(), title()

  /** Python's `str.lower()`. */
  function Lower(s: string): (r: string)
    ensures |r| == |s|
  {
    seq(|s|, i requires 0 <= i < |s| => LowerChar(s[i]))
  }

  lemma LowerHasNoUpper(s: string)
    ensures !HasUpper(Lower(s))
  {
  }

  lemma LowerIdempotent(s: string)
    ensures Lower(Lower(s)) == Lower(s)
  {
  }

  /**
   * Python's `str.title()`: a cased character is upper-cased when the
   * character before it is not cased, and lower-cased otherwise.
   */
  function TitleFrom(s: string, afterLetter: bool): (r: string)
    ensures |r| == |s|
  {
    if s == [] then []
    else
      var c := if afterLetter then LowerChar(s[0]) else UpperChar(s[0]);
      [c] + TitleFrom(s[1..], IsLetter(c))
  }

  function Title(s: string): (r: string)
    ensures |r| == |s|
  {
    TitleFrom(s, false)
  }

  /** Letter-wise reference definition of title(): each position depends only on it and its left neighbour. */
  lemma {:induction false} TitleFromAt(s: string, afterLetter: bool, i: nat)
    requires i < |s|
    ensures TitleFrom(s, afterLetter)[i] ==
      if !IsLetter(s[i]) then s[i]
      else if (if i == 0 then afterLetter else IsLetter(s[i - 1])) then LowerChar(s[i])
      else UpperChar(s[i])
  {
    var c := if afterLetter then LowerChar(s[0]) else UpperChar(s[0]);
    if i > 0 {
      TitleFromAt(s[1..], IsLetter(c), i - 1);
    }
  }

  lemma TitleAt(s: string, i: nat)
    requires i < |s|
    ensures Title(s)[i] ==
      if !IsLetter(s[i]) then s[i]
      else if i > 0 && IsLetter(s[i - 1]) then LowerChar(s[i])
      else UpperChar(s[i])
  {
    TitleFromAt(s, false, i);
  }

  lemma {:induction false} TitleFromIdempotent(s: string, afterLetter: bool)
    ensures TitleFrom(TitleFrom(s, afterLetter), afterLetter) == TitleFrom(s, afterLetter)
  {
    if s != [] {
      var c := if afterLetter then LowerChar(s[0]) else UpperChar(s[0]);
      var t := TitleFrom(s, afterLetter);
      assert t[0] == c && t[1..] == TitleFrom(s[1..], IsLetter(c));
      TitleFromIdempotent(s[1..], IsLetter(c));
    }
  }

  lemma TitleIdempotent(s: string)
    ensures Title(Title(s)) == Title(s)
  {
    TitleFromIdempotent(s, false);
  }

  /** title() changes letters only, so whitespace stays where it was. */
  lemma TitleKeepsStripped(s: string)
    requires Stripped(s)
    ensures Stripped(Title(s))
  {
    if s != [] {
      TitleAt(s, 0);
      TitleAt(s, |s| - 1);
    }
  }

  lemma LowerKeepsStripped(s: string)
    requires Stripped(s)
    ensures Stripped(Lower(s))
  {
  }

  /** The rule for names, campaigns and departments: strip, then title-case. */
  function TitleRule(s: string): (r: string)
    ensures Stripped(r) && |r| <= |s|
  {
    TitleKeepsStripped(Strip(s));
    Title(Strip(s))
  }

  /** The rule for payment methods: strip, then lower-case. */
  function LowerRule(s: string): (r: string)
    ensures Stripped(r) && !HasUpper(r) && |r| <= |s|
  {
    LowerKeepsStripped(Strip(s));
    LowerHasNoUpper(Strip(s));
    Lower(Strip(s))
  }

  lemma TitleRuleIdempotent(s: string)
    ensures TitleRule(TitleRule(s)) == TitleRule(s)
  {
    StripShape(s);
    TitleKeepsStripped(Strip(s));
    StripOfStripped(Title(Strip(s)));
    TitleIdempotent(Strip(s));
  }

  lemma LowerRuleIdempotent(s: string)
    ensures LowerRule(LowerRule(s)) == LowerRule(s)
  {
    StripShape(s);
    LowerKeepsStripped(Strip(s));
    StripOfStripped(Lower(Strip(s)));
    LowerIdempotent(Strip(s));
  }

  // ---------------------------------------------------------------------
  // Character deletion: re.sub(r"\D", "", s) and re.sub(r"[\$,]", "", s)

  /** Keeps the digit characters of `s`, in order. */
  function DigitsOnly(s: string): (r: string)
    ensures |r| <= |s| && AllDigits(r)
  {
    if s == [] then []
    else (if IsDigit(s[0]) then [s[0]] else []) + DigitsOnly(s[1..])
  }

  /** Every digit of `s` survives, as often as it occurs. */
  lemma {:induction false} DigitsOnlyKeepsDigits(s: string)
    ensures forall c :: IsDigit(c) ==> multiset(DigitsOnly(s))[c] == multiset(s)[c]
  {
    if s != [] {
      assert s == [s[0]] + s[1..];
      DigitsOnlyKeepsDigits(s[1..]);
    }
  }

  lemma {:induction false} DigitsOnlyOfDigits(s: string)
    requires AllDigits(s)
    ensures DigitsOnly(s) == s
  {
    if s != [] {
      DigitsOnlyOfDigits(s[1..]);
    }
  }

  lemma DigitsOnlyIdempotent(s: string)
    ensures DigitsOnly(DigitsOnly(s)) == DigitsOnly(s)
  {
    DigitsOnlyOfDigits(DigitsOnly(s));
  }

  lemma {:induction false} DigitsOnlyAppend(a: string, b: string)
    ensures DigitsOnly(a + b) == DigitsOnly(a) + DigitsOnly(b)
  {
    if a == [] {
      assert a + b == b;
    } else {
      assert (a + b)[1..] == a[1..] + b;
      DigitsOnlyAppend(a[1..], b);
    }
  }

  predicate IsCurrencyMark(c: char) { c == '$' || c == ',' }

  /** Deletes every `$` and `,`, keeping the other characters in order. */
  function DeleteCurrencyMarks(s: string): (r: string)
    ensures |r| <= |s| && forall i :: 0 <= i < |r| ==> !IsCurrencyMark(r[i])
  {
    if s == [] then []
    else (if IsCurrencyMark(s[0]) then [] else [s[0]]) + DeleteCurrencyMarks(s[1..])
  }

  /** Every other character of `s` survives, as often as it occurs. */
  lemma {:induction false} DeleteCurrencyMarksKeepsRest(s: string)
    ensures forall c :: !IsCurrencyMark(c) ==> multiset(DeleteCurrencyMarks(s))[c] == multiset(s)[c]
  {
    if s != [] {
      assert s == [s[0]] + s[1..];
      DeleteCurrencyMarksKeepsRest(s[1..]);
    }
  }

  // ---------------------------------------------------------------------
  // Header normalisation: .str.strip().str.lower().str.replace(" ", "_")

  function SpacesToUnderscores(s: string): (r: string)
    ensures |r| == |s|
  {
    seq(|s|, i requires 0 <= i < |s| => if s[i] == ' ' then '_' else s[i])
  }

  function NormalizeHeader(h: string): string {
    SpacesToUnderscores(Lower(Strip(h)))
  }

  /** A normalised header has no surrounding whitespace, no space, and no upper-case letter. */
  lemma NormalizeHeaderShape(h: string)
    ensures Stripped(NormalizeHeader(h))
    ensures ' ' !in NormalizeHeader(h) && !HasUpper(NormalizeHeader(h))
  {
    StripShape(h);
    LowerKeepsStripped(Strip(h));
  }

  lemma NormalizeHeaderIdempotent(h: string)
    ensures NormalizeHeader(NormalizeHeader(h)) == NormalizeHeader(h)
  {
    var n := NormalizeHeader(h);
    NormalizeHeaderShape(h);
    StripOfStripped(n);
    assert Lower(n) == n;
    assert SpacesToUnderscores(n) == n;
  }

  // ---------------------------------------------------------------------
  // Substring test: Python's `alias in text`

  function Contains(text: string, part: string): bool {
    if part <= text then true
    else if text == [] then false
    else Contains(text[1..], part)
  }

  /** `part` occurs in `text` starting at index `i`. */
  predicate OccursAt(text: string, part: string, i: int) {
    0 <= i && i + |part| <= |text| && text[i..i + |part|] == part
  }

  lemma {:induction false} ContainsMeansOccurs(text: string, part: string)
    ensures Contains(text, part) <==> exists i :: OccursAt(text, part, i)
  {
    if part <= text {
      assert OccursAt(text, part, 0);
    } else if text == [] {
    } else {
      ContainsMeansOccurs(text[1..], part);
      if exists i :: OccursAt(text, part, i) {
        var i :| OccursAt(text, part, i);
        assert i != 0;
        assert OccursAt(text[1..], part, i - 1);
      }
      if Contains(text[1..], part) {
        var i :| OccursAt(text[1..], part, i);
        assert OccursAt(text, part, i + 1);
      }
    }
  }

  /** A piece holding an upper-case letter never occurs in a text that has none. */
  lemma UpperNeverInLower(text: string, part: string)
    requires HasUpper(part) && !HasUpper(text)
    ensures !Contains(text, part)
  {
    ContainsMeansOccurs(text, part);
    var k :| 0 <= k < |part| && IsUpper(part[k]);
    forall i | 0 <= i && i + |part| <= |text|
      ensures !OccursAt(text, part, i)
    {
      assert text[i..i + |part|][k] == text[i + k];
    }
  }

  // ---------------------------------------------------------------------
  // Decimal numbers: the part of Python's float() the amount column needs

  function DigitValue(c: char): nat
    requires IsDigit(c)
  {
    c as int - '0' as int
  }

  function DigitChar(d: nat): char
    requires d < 10
  {
    ('0' as int + d) as char
  }

  /** The value of a string of decimal digits; the empty string is 0. */
  function DigitsValue(ds: string): nat
    requires AllDigits(ds)
  {
    if ds == [] then 0 else 10 * DigitsValue(ds[..|ds| - 1]) + DigitValue(ds[|ds| - 1])
  }

  /** The decimal spelling of a natural number, without leading zeros. */
  function NatText(n: nat): (r: string)
    ensures r != [] && AllDigits(r)
  {
    if n < 10 then [DigitChar(n)] else NatText(n / 10) + [DigitChar(n % 10)]
  }

  lemma {:induction false} DigitsValueOfNatText(n: nat)
    ensures DigitsValue(NatText(n)) == n
  {
    if n >= 10 {
      var t := NatText(n);
      assert t[..|t| - 1] == NatText(n / 10);
      DigitsValueOfNatText(n / 10);
    }
  }

  function Pow10(n: nat): (r: nat)
    ensures r >= 1
  {
    if n == 0 then 1 else 10 * Pow10(n - 1)
  }

  /** Index of the first occurrence of `c`, or `|s|` when there is none. */
  function Find(s: string, c: char): (r: nat)
    ensures r <= |s| && c !in s[..r]
    ensures r < |s| ==> s[r] == c
  {
    if s == [] then 0
    else if s[0] == c then 0
    else
      var k := Find(s[1..], c);
      assert s[..k + 1] == [s[0]] + s[1..][..k];
      1 + k
  }

  /** `digits [. digits]` or `. digits`: at least one digit in all. */
  function ParseMantissa(t: string): Option<real> {
    var k := Find(t, '.');
    var whole := t[..k];
    var frac := if k < |t| then t[k + 1..] else "";
    if AllDigits(whole) && AllDigits(frac) && |whole| + |frac| > 0 then
      Some(DecimalValue(whole, frac))
    else None
  }

  /** The value of the digits `whole` before a point and `frac` after it. */
  function DecimalValue(whole: string, frac: string): real
    requires AllDigits(whole) && AllDigits(frac)
  {
    DigitsValue(whole) as real + DigitsValue(frac) as real / Pow10(|frac|) as real
  }

  /** An optionally signed decimal exponent. */
  function ParseExponent(t: string): Option<int> {
    if |t| > 0 && (t[0] == '+' || t[0] == '-') then
      var ds := t[1..];
      if ds != [] && AllDigits(ds) then
        Some(if t[0] == '-' then -(DigitsValue(ds) as int) else DigitsValue(ds) as int)
      else None
    else if t != [] && AllDigits(t) then Some(DigitsValue(t) as int)
    else None
  }

  function Scale(m: real, e: int): real {
    if e >= 0 then m * Pow10(e) as real else m / Pow10(-e) as real
  }

  /** An unsigned finite number: mantissa with an optional `e`/`E` exponent. */
  function ParseUnsigned(t: string): Option<real> {
    var k := Find(Lower(t), 'e');
    if k == |t| then ParseMantissa(t)
    else
      match (ParseMantissa(t[..k]), ParseExponent(t[k + 1..]))
      case (Some(m), Some(e)) => Some(Scale(m, e))
      case _ => None
  }

  /** The result of float(): a finite value or NaN. */
  datatype Float = Finite(value: real) | NotANumber

  /**
   * Python's `float(text)`: surrounding whitespace is ignored, then an
   * optional sign, then either `nan` (any case) or a decimal number with
   * an optional exponent. `None` is the ValueError.
   */
  function ParseFloat(text: string): (r: Option<Float>)
    ensures Strip(text) == [] ==> r.None?
  {
    var t := Strip(text);
    var negative := |t| > 0 && t[0] == '-';
    var body := if |t| > 0 && (t[0] == '+' || t[0] == '-') then t[1..] else t;
    if Lower(body) == "nan" then Some(NotANumber)
    else
      match ParseUnsigned(body)
      case Some(v) => Some(Finite(if negative then -v else v))
      case None => None
  }

  lemma NatTextHasNoMarks(n: nat)
    ensures Find(NatText(n), '.') == |NatText(n)|
    ensures Lower(NatText(n)) == NatText(n)
    ensures Find(Lower(NatText(n)), 'e') == |NatText(n)|
  {
  }

  lemma ParseMantissaNatText(n: nat)
    ensures ParseMantissa(NatText(n)) == Some(n as real)
  {
    var t := NatText(n);
    NatTextHasNoMarks(n);
    assert t[..|t|] == t;
    DigitsValueOfNatText(n);
  }

  /** float() reads back the decimal spelling of every natural number. */
  lemma ParseNatText(n: nat)
    ensures ParseFloat(NatText(n)) == Some(Finite(n as real))
  {
    var t := NatText(n);
    assert Stripped(t) by {
      assert IsDigit(t[0]) && IsDigit(t[|t| - 1]);
    }
    StripOfStripped(t);
    NatTextHasNoMarks(n);
    ParseMantissaNatText(n);
    assert t[0] != '+' && t[0] != '-' by { assert IsDigit(t[0]); }
    assert Lower(t) != "nan" by { assert IsDigit(t[0]); }
    assert ParseUnsigned(t) == Some(n as real);
  }

  /** float() reads `whole.frac`, both parts digits, as whole + frac / 10^|frac|. */
  lemma ParseDecimal(t: string, whole: string, frac: string)
    requires t == whole + "." + frac
    requires whole != [] && frac != [] && AllDigits(whole) && AllDigits(frac)
    ensures ParseFloat(t) == Some(Finite(DecimalValue(whole, frac)))
  {
    DecimalChars(whole, frac);
    DecimalMarks(t, |whole|);
    assert t[..|whole|] == whole && t[|whole| + 1..] == frac;
    ParsePlain(t);
  }

  /** A decimal spelling holds digits and one point, at the end of the whole part. */
  lemma DecimalChars(whole: string, frac: string)
    requires whole != [] && frac != [] && AllDigits(whole) && AllDigits(frac)
    ensures var t := whole + "." + frac;
      t[|whole|] == '.' && IsDigit(t[0]) && IsDigit(t[|t| - 1])
      && (forall i :: 0 <= i < |t| && i != |whole| ==> IsDigit(t[i]))
  {
    var t := whole + "." + frac;
    forall i | 0 <= i < |t| && i != |whole| ensures IsDigit(t[i]) {
      if i < |whole| {
        assert t[i] == whole[i];
      } else {
        assert t[i] == frac[i - |whole| - 1];
      }
    }
  }

  /** In text of digits with one point at `w`, the point is found at `w`, no `e` is found, and lower-casing changes nothing. */
  lemma DecimalMarks(t: string, w: nat)
    requires w < |t| && t[w] == '.' && forall i :: 0 <= i < |t| && i != w ==> IsDigit(t[i])
    ensures Find(t, '.') == w && Lower(t) == t && Find(Lower(t), 'e') == |t|
  {
    var k := Find(t, '.');
    assert forall i :: 0 <= i < w ==> t[i] != '.';
    assert !(k < w);
    assert t[w] in t[..w + 1];
    assert !(k > w);
    forall i | 0 <= i < |t| ensures Lower(t)[i] == t[i] {
      assert !IsUpper(t[i]);
    }
    assert forall i :: 0 <= i < |t| ==> t[i] != 'e';
  }

  /** Text that starts and ends with a digit and has no exponent reads as its mantissa. */
  lemma ParsePlain(t: string)
    requires t != [] && IsDigit(t[0]) && IsDigit(t[|t| - 1])
    requires Lower(t) == t && Find(Lower(t), 'e') == |t|
    ensures ParseFloat(t) == match ParseMantissa(t) case Some(m) => Some(Finite(m)) case None => None
  {
    assert Stripped(t);
    StripOfStripped(t);
    assert t[0] != '+' && t[0] != '-' && t[0] != 'n';
    assert Lower(t) != "nan";
  }
}
