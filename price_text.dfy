/**
 * The text half of the price parser: three character replacements and a
 * whitespace strip, then the conversion to a number, with `float` read as
 * an exact decimal.
 */
module PriceText {
  import opened Wrappers

  // ---------------------------------------------------------------------
  // Character-level helpers
  // ---------------------------------------------------------------------

  /** Python's `str.isspace`: the characters `str.strip()` removes. */
  predicate IsSpace(c: char)
  {
    || c == ' ' || c == '\t' || c == '\n' || c == '\r' || c == '\U{0B}' || c == '\U{0C}'
    || ('\U{1C}' <= c <= '\U{1F}')
    || c == '\U{85}' || c == '\U{A0}' || c == '\U{1680}'
    || ('\U{2000}' <= c <= '\U{200A}')
    || c == '\U{2028}' || c == '\U{2029}' || c == '\U{202F}' || c == '\U{205F}' || c == '\U{3000}'
  }

  predicate IsDigit(c: char)
  {
    '0' <= c <= '9'
  }

  function DigitValue(c: char): nat
    requires IsDigit(c)
  {
    (c as int - '0' as int) as nat
  }

  function Count(s: string, c: char): nat
  {
    if s == [] then 0 else (if s[0] == c then 1 else 0) + Count(s[1..], c)
  }

  lemma {:induction false} CountAppend(a: string, b: string, c: char)
    ensures Count(a + b, c) == Count(a, c) + Count(b, c)
  {
    if a == [] {
      assert a + b == b;
    } else {
      assert (a + b)[0] == a[0];
      assert (a + b)[1..] == a[1..] + b;
      CountAppend(a[1..], b, c);
    }
  }

  lemma CountIsZero(s: string, c: char)
    requires c !in s
    ensures Count(s, c) == 0
  {
  }

  // ---------------------------------------------------------------------
  // str.replace and str.strip
  // ---------------------------------------------------------------------

  /** `s.replace(c, '')`. */
  function RemoveChar(s: string, c: char): (r: string)
    ensures c !in r
    ensures |r| <= |s|
  {
    if s == [] then []
    else if s[0] == c then RemoveChar(s[1..], c)
    else [s[0]] + RemoveChar(s[1..], c)
  }

  /** `s.replace(a, b)` for single characters `a != b`. */
  function ReplaceChar(s: string, a: char, b: char): (r: string)
    requires a != b
    ensures a !in r
    ensures |r| == |s|
  {
    if s == [] then []
    else [if s[0] == a then b else s[0]] + ReplaceChar(s[1..], a, b)
  }

  /** Deleting characters never introduces one that was absent. */
  lemma {:induction false} RemoveCharKeepsAbsent(s: string, c: char, d: char)
    requires d !in s
    ensures d !in RemoveChar(s, c)
  {
    if s != [] {
      RemoveCharKeepsAbsent(s[1..], c, d);
    }
  }

  lemma {:induction false} RemoveCharCount(s: string, c: char, d: char)
    requires d != c
    ensures Count(RemoveChar(s, c), d) == Count(s, d)
  {
    if s != [] {
      RemoveCharCount(s[1..], c, d);
      if s[0] != c {
        assert ([s[0]] + RemoveChar(s[1..], c))[1..] == RemoveChar(s[1..], c);
      }
    }
  }

  lemma {:induction false} ReplaceCharCount(s: string, a: char, b: char, d: char)
    requires a != b
    ensures d == b ==> Count(ReplaceChar(s, a, b), d) == Count(s, b) + Count(s, a)
    ensures d != a && d != b ==> Count(ReplaceChar(s, a, b), d) == Count(s, d)
  {
    if s != [] {
      ReplaceCharCount(s[1..], a, b, d);
      assert ReplaceChar(s, a, b)[1..] == ReplaceChar(s[1..], a, b);
    }
  }

  function StripLeft(s: string): (r: string)
    ensures |r| <= |s| && r == s[|s| - |r|..]
    ensures forall i :: 0 <= i < |s| - |r| ==> IsSpace(s[i])
    ensures r != [] ==> !IsSpace(r[0])
  {
    if s != [] && IsSpace(s[0]) then StripLeft(s[1..]) else s
  }

  function StripRight(s: string): (r: string)
    ensures |r| <= |s| && r == s[..|r|]
    ensures forall i :: |r| <= i < |s| ==> IsSpace(s[i])
    ensures r != [] ==> !IsSpace(r[|r| - 1])
  {
    if s != [] && IsSpace(s[|s| - 1]) then StripRight(s[..|s| - 1]) else s
  }

  /**
   * `s.strip()`: whitespace cut from both ends, so that the result neither
   * starts nor ends with whitespace. `StripIsTrimmedSlice` states that only
   * whitespace is cut.
   */
  function Strip(s: string): (r: string)
    ensures |r| <= |s|
    ensures r != [] ==> !IsSpace(r[0]) && !IsSpace(r[|r| - 1])
  {
    StripRight(StripLeft(s))
  }

  /** `r` is the slice `s[i..j]`, and everything of `s` outside that slice is whitespace. */
  predicate TrimmedSlice(s: string, r: string, i: nat, j: nat)
  {
    && i <= j <= |s| && r == s[i..j]
    && (forall k :: 0 <= k < i ==> IsSpace(s[k]))
    && (forall k :: j <= k < |s| ==> IsSpace(s[k]))
  }

  /** The stripped text is the middle slice of `s`, and everything cut off either end is whitespace. */
  lemma StripIsTrimmedSlice(s: string)
    ensures exists i: nat, j: nat :: TrimmedSlice(s, Strip(s), i, j)
  {
    var l := StripLeft(s);
    var r := StripRight(l);
    var i := |s| - |l|;
    SliceOfSuffix(s, l, r, i);
    assert TrimmedSlice(s, Strip(s), i, i + |r|);
  }

  /** A prefix of the suffix `s[i..]` is a slice of `s`, and the rest of that suffix stays in place. */
  lemma SliceOfSuffix(s: string, l: string, r: string, i: nat)
    requires i <= |s| && l == s[i..] && |r| <= |l| && r == l[..|r|]
    requires forall k :: |r| <= k < |l| ==> IsSpace(l[k])
    ensures r == s[i..i + |r|]
    ensures forall k :: i + |r| <= k < |s| ==> IsSpace(s[k])
  {
    forall k | i + |r| <= k < |s| ensures IsSpace(s[k]) {
      assert s[k] == l[k - i];
    }
  }

  lemma {:induction false} StripLeftCount(s: string, c: char)
    requires !IsSpace(c)
    ensures Count(StripLeft(s), c) == Count(s, c)
  {
    if s != [] && IsSpace(s[0]) {
      StripLeftCount(s[1..], c);
    }
  }

  lemma {:induction false} StripRightCount(s: string, c: char)
    requires !IsSpace(c)
    ensures Count(StripRight(s), c) == Count(s, c)
  {
    if s != [] && IsSpace(s[|s| - 1]) {
      var init := s[..|s| - 1];
      assert s == init + [s[|s| - 1]];
      CountAppend(init, [s[|s| - 1]], c);
      StripRightCount(init, c);
    }
  }

  /** Stripping keeps every non-whitespace character. */
  lemma StripKeepsCount(s: string, c: char)
    requires !IsSpace(c)
    ensures Count(Strip(s), c) == Count(s, c)
  {
    StripLeftCount(s, c);
    StripRightCount(StripLeft(s), c);
  }

  lemma StripIdentity(s: string)
    requires s != [] && !IsSpace(s[0]) && !IsSpace(s[|s| - 1])
    ensures Strip(s) == s
  {
  }

  /** One space of padding on each side goes, and nothing else. */
  lemma StripPadded(s: string)
    requires s != [] && !IsSpace(s[0]) && !IsSpace(s[|s| - 1])
    ensures Strip([' '] + s + [' ']) == s
  {
    var p := [' '] + s + [' '];
    assert p[1..] == s + [' '];
    assert StripLeft(s + [' ']) == s + [' '];
    assert (s + [' '])[..|s|] == s;
  }

  // ---------------------------------------------------------------------
  // The cleaning chain
  // ---------------------------------------------------------------------

  /**
   * The cleaning applied to the price text before conversion: delete every
   * `$`, delete every `.` (thousands separator), turn every `,` (decimal
   * separator) into `.`, then strip surrounding whitespace. The cleaned text
   * holds no `$` and no `,`, and exactly one `.` for every `,` of the raw
   * text: the raw text's own dots are all gone.
   */
  function Clean(text: string): (r: string)
    ensures '$' !in r && ',' !in r
    ensures Count(r, '.') == Count(text, ',')
  {
    var c := Scrub(text);
    StripKeepsCount(c, '.');
    StripKeepsCount(c, ',');
    StripKeepsCount(c, '$');
    CountIsZero(c, ',');
    CountIsZero(c, '$');
    CountAppearance(Strip(c), ',');
    CountAppearance(Strip(c), '$');
    Strip(c)
  }

  /**
   * The three replacements, before the strip: no `$` and no `,` survive,
   * and every `.` of the result stands for a `,` of the input.
   */
  function Scrub(text: string): (r: string)
    ensures '$' !in r && ',' !in r
    ensures Count(r, '.') == Count(text, ',')
  {
    var a := RemoveChar(text, '$');
    var b := RemoveChar(a, '.');
    RemoveCharCount(text, '$', ',');
    RemoveCharCount(a, '.', ',');
    RemoveCharKeepsAbsent(a, '.', '$');
    CountIsZero(b, '.');
    CountIsZero(b, '$');
    ReplaceCharCount(b, ',', '.', '.');
    ReplaceCharCount(b, ',', '.', '$');
    CountAppearance(ReplaceChar(b, ',', '.'), '$');
    ReplaceChar(b, ',', '.')
  }

  lemma ScrubAppend(a: string, b: string)
    ensures Scrub(a + b) == Scrub(a) + Scrub(b)
  {
    RemoveCharAppend(a, b, '$');
    RemoveCharAppend(RemoveChar(a, '$'), RemoveChar(b, '$'), '.');
    ReplaceCharAppend(RemoveChar(RemoveChar(a, '$'), '.'), RemoveChar(RemoveChar(b, '$'), '.'), ',', '.');
  }

  /** Text without any of `$`, `.` and `,` passes through the replacements unchanged. */
  lemma ScrubPlain(s: string)
    requires '$' !in s && '.' !in s && ',' !in s
    ensures Scrub(s) == s
  {
    RemoveCharAbsent(s, '$');
    RemoveCharAbsent(s, '.');
    ReplaceCharAbsent(s, ',', '.');
  }

  lemma {:induction false} CountAppearance(s: string, c: char)
    ensures c in s <==> Count(s, c) > 0
  {
    if s != [] {
      CountAppearance(s[1..], c);
      assert s == [s[0]] + s[1..];
    }
  }

  // ---------------------------------------------------------------------
  // float()
  // ---------------------------------------------------------------------

  function Pow10(n: nat): (r: nat)
    ensures r >= 1
  {
    if n == 0 then 1 else 10 * Pow10(n - 1)
  }

  predicate AllDigits(s: string)
  {
    forall i :: 0 <= i < |s| ==> IsDigit(s[i])
  }

  /** The value of a string of decimal digits (empty gives 0). */
  function DigitsValue(s: string): nat
    requires AllDigits(s)
  {
    if s == [] then 0 else 10 * DigitsValue(s[..|s| - 1]) + DigitValue(s[|s| - 1])
  }

  lemma {:induction false} DigitsValueAppend(a: string, b: string)
    requires AllDigits(a) && AllDigits(b)
    ensures AllDigits(a + b)
    ensures DigitsValue(a + b) == DigitsValue(a) * Pow10(|b|) + DigitsValue(b)
  {
    assert AllDigits(a + b) by {
      forall i | 0 <= i < |a + b| ensures IsDigit((a + b)[i]) {
        if i < |a| { assert (a + b)[i] == a[i]; } else { assert (a + b)[i] == b[i - |a|]; }
      }
    }
    if b == [] {
      assert a + b == a;
    } else {
      var b' := b[..|b| - 1];
      assert (a + b)[..|a + b| - 1] == a + b';
      assert (a + b)[|a + b| - 1] == b[|b| - 1];
      DigitsValueAppend(a, b');
      assert b[..|b| - 1] == b';
      ShiftDigit(DigitsValue(a), Pow10(|b'|), DigitsValue(b'), DigitValue(b[|b| - 1]));
    }
  }

  /** The arithmetic step of `DigitsValueAppend`: appending one digit multiplies the prefix by ten. */
  lemma ShiftDigit(x: nat, p: nat, y: nat, d: nat)
    ensures 10 * (x * p + y) + d == x * (10 * p) + (10 * y + d)
  {
  }

  /** Index of the first `.` of `s`, or `|s|` when there is none. */
  function DotIndex(s: string): (k: nat)
    ensures k <= |s| && '.' !in s[..k]
    ensures k < |s| ==> s[k] == '.'
  {
    if s == [] then 0 else if s[0] == '.' then 0 else 1 + DotIndex(s[1..])
  }

  /**
   * The unsigned decimals the model accepts: digits and at most one `.`,
   * with at least one digit ("12", "12.5", "12.", ".5"; not "." nor "").
   */
  predicate IsUnsignedDecimal(s: string)
  {
    && (forall i :: 0 <= i < |s| ==> IsDigit(s[i]) || s[i] == '.')
    && Count(s, '.') <= 1
    && exists i :: 0 <= i < |s| && IsDigit(s[i])
  }

  /** Both sides of the `.` of an accepted decimal are plain digits. */
  lemma DecimalPartsAreDigits(s: string)
    requires IsUnsignedDecimal(s)
    ensures AllDigits(s[..DotIndex(s)])
    ensures DotIndex(s) < |s| ==> AllDigits(s[DotIndex(s) + 1..])
  {
    var k := DotIndex(s);
    forall i | 0 <= i < k ensures IsDigit(s[..k][i]) {
      assert s[..k][i] == s[i] && s[i] in s[..k];
    }
    if k < |s| {
      NoDotAfterFirst(s, k);
      var frac := s[k + 1..];
      forall i | 0 <= i < |frac| ensures IsDigit(frac[i]) {
        assert frac[i] == s[k + 1 + i] && frac[i] in frac;
      }
    }
  }

  /** In a string with at most one `.`, nothing after the first `.` is a `.`. */
  lemma NoDotAfterFirst(s: string, k: nat)
    requires Count(s, '.') <= 1 && k < |s| && s[k] == '.'
    ensures '.' !in s[k + 1..]
  {
    var frac := s[k + 1..];
    assert s == s[..k] + (['.'] + frac);
    CountAppend(s[..k], ['.'] + frac, '.');
    CountAppend(['.'], frac, '.');
    CountAppearance(frac, '.');
  }

  /** The exact value of an accepted unsigned decimal. */
  function UnsignedValue(s: string): real
    requires IsUnsignedDecimal(s)
  {
    var k := DotIndex(s);
    var whole := s[..k];
    var frac := if k < |s| then s[k + 1..] else "";
    DecimalPartsAreDigits(s);
    DigitsValue(whole) as real + DigitsValue(frac) as real / Pow10(|frac|) as real
  }

  /**
   * `float(s)` on the subset of Python's grammar the model covers: an
   * optional sign followed by an unsigned decimal. Anything else is the
   * `ValueError` case and gives `None`. Python also accepts exponents
   * ("1e3"), "inf"/"nan", underscores between digits and surrounding
   * whitespace; those forms are outside the model and give `None` here.
   */
  function ParseFloat(s: string): (r: Option<real>)
    ensures r.Some? <==> IsUnsignedDecimal(if s != [] && (s[0] == '+' || s[0] == '-') then s[1..] else s)
  {
    var signed := s != [] && (s[0] == '+' || s[0] == '-');
    var body := if signed then s[1..] else s;
    if !IsUnsignedDecimal(body) then None
    else if signed && s[0] == '-' then Some(-UnsignedValue(body))
    else Some(UnsignedValue(body))
  }

  /** A string with two or more dots is never a number. */
  lemma TwoDotsIsNotANumber(s: string)
    requires Count(s, '.') >= 2
    ensures ParseFloat(s) == None
  {
    if s != [] && (s[0] == '+' || s[0] == '-') {
      assert s == [s[0]] + s[1..];
      CountAppend([s[0]], s[1..], '.');
    }
  }

  /** Text with two or more commas cleans to a string with two or more dots, which float() rejects. */
  lemma ManyCommasIsNotANumber(text: string)
    requires Count(text, ',') >= 2
    ensures ParseFloat(Clean(text)) == None
  {
    TwoDotsIsNotANumber(Clean(text));
  }

  /** A string with no digit at all is never a number. */
  lemma NoDigitIsNotANumber(s: string)
    requires forall i :: 0 <= i < |s| ==> !IsDigit(s[i])
    ensures ParseFloat(s) == None
  {
    if s != [] && (s[0] == '+' || s[0] == '-') {
      var body := s[1..];
      forall i | 0 <= i < |body| ensures !IsDigit(body[i]) {
        assert body[i] == s[i + 1];
      }
    }
  }

  // ---------------------------------------------------------------------
  // Localized rendering and the round trip
  // ---------------------------------------------------------------------

  function Digit(d: nat): (c: char)
    requires d < 10
    ensures IsDigit(c) && DigitValue(c) == d
  {
    ('0' as int + d) as char
  }

  /** The shortest decimal digits of `n` ("0" for zero). */
  function NatDigits(n: nat): (s: string)
    ensures s != [] && AllDigits(s) && DigitsValue(s) == n
  {
    if n < 10 then [Digit(n)]
    else
      var s := NatDigits(n / 10) + [Digit(n % 10)];
      assert s[..|s| - 1] == NatDigits(n / 10);
      s
  }

  /** `n` as exactly three digits, with leading zeros. */
  function ThreeDigits(n: nat): (s: string)
    requires n < 1000
    ensures |s| == 3 && AllDigits(s) && DigitsValue(s) == n
  {
    var h, t, o := n / 100, n % 100 / 10, n % 10;
    var s := [Digit(h), Digit(t), Digit(o)];
    assert s[..2] == [Digit(h), Digit(t)];
    assert s[..2][..1] == [Digit(h)];
    assert [Digit(h)][..0] == [];
    assert DigitsValue([Digit(h)]) == h;
    assert DigitsValue(s[..2]) == 10 * h + t;
    assert DigitsValue(s) == 10 * (10 * h + t) + o;
    s
  }

  /** `n` written the way the page shows it: groups of three digits separated by `.` ("1.140"). */
  function Grouped(n: nat): (s: string)
    ensures s != [] && IsDigit(s[0]) && IsDigit(s[|s| - 1])
    ensures forall i :: 0 <= i < |s| ==> IsDigit(s[i]) || s[i] == '.'
  {
    if n < 1000 then NatDigits(n)
    else Grouped(n / 1000) + "." + ThreeDigits(n % 1000)
  }

  lemma {:induction false} RemoveCharAppend(a: string, b: string, c: char)
    ensures RemoveChar(a + b, c) == RemoveChar(a, c) + RemoveChar(b, c)
  {
    if a == [] {
      assert a + b == b;
    } else {
      assert (a + b)[0] == a[0];
      assert (a + b)[1..] == a[1..] + b;
      RemoveCharAppend(a[1..], b, c);
    }
  }

  lemma {:induction false} RemoveCharAbsent(s: string, c: char)
    requires c !in s
    ensures RemoveChar(s, c) == s
  {
    if s != [] {
      RemoveCharAbsent(s[1..], c);
    }
  }

  lemma {:induction false} ReplaceCharAbsent(s: string, a: char, b: char)
    requires a != b && a !in s
    ensures ReplaceChar(s, a, b) == s
  {
    if s != [] {
      ReplaceCharAbsent(s[1..], a, b);
      assert s == [s[0]] + s[1..];
    }
  }

  lemma {:induction false} ReplaceCharAppend(x: string, y: string, a: char, b: char)
    requires a != b
    ensures ReplaceChar(x + y, a, b) == ReplaceChar(x, a, b) + ReplaceChar(y, a, b)
  {
    if x == [] {
      assert x + y == y;
    } else {
      assert (x + y)[0] == x[0];
      assert (x + y)[1..] == x[1..] + y;
      ReplaceCharAppend(x[1..], y, a, b);
    }
  }

  /** Deleting the group separators of `Grouped(n)` leaves the plain digits of `n`. */
  lemma {:induction false} UngroupedValue(n: nat)
    ensures AllDigits(RemoveChar(Grouped(n), '.'))
    ensures RemoveChar(Grouped(n), '.') != []
    ensures DigitsValue(RemoveChar(Grouped(n), '.')) == n
  {
    if n < 1000 {
      RemoveCharAbsent(NatDigits(n), '.');
    } else {
      var hi := Grouped(n / 1000);
      var lo := ThreeDigits(n % 1000);
      RemoveCharAppend(hi + ".", lo, '.');
      RemoveCharAppend(hi, ".", '.');
      assert RemoveChar(".", '.') == [];
      RemoveCharAbsent(lo, '.');
      UngroupedValue(n / 1000);
      var u := RemoveChar(hi, '.');
      assert RemoveChar(Grouped(n), '.') == u + lo;
      DigitsValueAppend(u, lo);
      assert Pow10(3) == 1000;
    }
  }

  /** A plain digit string converts to its value. */
  lemma ParseDigits(u: string)
    requires u != [] && AllDigits(u)
    ensures ParseFloat(u) == Some(DigitsValue(u) as real)
  {
    assert '.' !in u;
    CountIsZero(u, '.');
    DotIndexAbsent(u);
    assert u[..|u|] == u;
    assert IsDigit(u[0]);
    assert IsUnsignedDecimal(u);
  }

  /** Digits, one `.`, digits: the whole part plus the fraction scaled by its length. */
  lemma {:induction false} ParseDigitsDotDigits(u: string, f: string)
    requires u != [] && AllDigits(u) && AllDigits(f)
    ensures ParseFloat(u + "." + f) == Some(DigitsValue(u) as real + DigitsValue(f) as real / Pow10(|f|) as real)
  {
    var c := u + "." + f;
    DigitsDotDigitsShape(u, f);
    assert c[..|u|] == u;
    assert c[|u| + 1..] == f;
    assert c[0] == u[0];
    assert IsUnsignedDecimal(c) && DotIndex(c) == |u| < |c|;
    UnsignedValueOfParts(c, u, f);
    ParseUnsigned(c);
    var v := DigitsValue(u) as real + DigitsValue(f) as real / Pow10(|f|) as real;
    assert UnsignedValue(c) == v;
    assert ParseFloat(c) == Some(v);
  }

  /** Without a sign, `float` gives the unsigned value. */
  lemma ParseUnsigned(c: string)
    requires c != [] && IsDigit(c[0]) && IsUnsignedDecimal(c)
    ensures ParseFloat(c) == Some(UnsignedValue(c))
  {
  }

  lemma UnsignedValueOfParts(c: string, u: string, f: string)
    requires IsUnsignedDecimal(c) && DotIndex(c) == |u| < |c|
    requires c[..|u|] == u && c[|u| + 1..] == f
    ensures AllDigits(u) && AllDigits(f)
    ensures UnsignedValue(c) == DigitsValue(u) as real + DigitsValue(f) as real / Pow10(|f|) as real
  {
    DecimalPartsAreDigits(c);
  }

  lemma DigitsDotDigitsShape(u: string, f: string)
    requires u != [] && AllDigits(u) && AllDigits(f)
    ensures IsUnsignedDecimal(u + "." + f)
    ensures DotIndex(u + "." + f) == |u|
  {
    DigitsDotDigitsDot(u, f);
    DigitsDotDigitsCount(u, f);
    DigitsDotDigitsChars(u, f);
  }

  lemma DigitsDotDigitsDot(u: string, f: string)
    requires AllDigits(u)
    ensures DotIndex(u + "." + f) == |u|
  {
    assert u + "." + f == u + ("." + f);
    assert '.' !in u;
    DotIndexPrefix(u, "." + f);
  }

  lemma DigitsDotDigitsCount(u: string, f: string)
    requires AllDigits(u) && AllDigits(f)
    ensures Count(u + "." + f, '.') == 1
  {
    assert u + "." + f == u + ("." + f);
    assert '.' !in u && '.' !in f;
    CountAppend(u, "." + f, '.');
    CountAppend(".", f, '.');
    CountIsZero(u, '.');
    CountIsZero(f, '.');
    assert Count(".", '.') == 1;
  }

  lemma DigitsDotDigitsChars(u: string, f: string)
    requires u != [] && AllDigits(u) && AllDigits(f)
    requires Count(u + "." + f, '.') == 1
    ensures IsUnsignedDecimal(u + "." + f)
  {
    var c := u + "." + f;
    assert IsDigit(c[0]);
    forall i | 0 <= i < |c| ensures IsDigit(c[i]) || c[i] == '.' {
      if i < |u| { assert c[i] == u[i]; }
      else if i > |u| { assert c[i] == f[i - |u| - 1]; }
    }
  }

  /** The cleaning of a grouped integer only deletes its group separators. */
  lemma CleanGrouped(n: nat)
    ensures Clean(Grouped(n)) == RemoveChar(Grouped(n), '.')
  {
    ScrubGrouped(n);
    UngroupedValue(n);
    var u := RemoveChar(Grouped(n), '.');
    assert IsDigit(u[0]) && IsDigit(u[|u| - 1]);
    StripIdentity(u);
  }

  /** Grouped integers ("1.140", "1.234.567") convert to the ungrouped integer. */
  lemma GroupedIntegerRoundTrip(n: nat)
    ensures ParseFloat(Clean(Grouped(n))) == Some(n as real)
  {
    CleanGrouped(n);
    UngroupedValue(n);
    ParseDigits(RemoveChar(Grouped(n), '.'));
  }

  lemma {:induction false} DotIndexAbsent(s: string)
    requires '.' !in s
    ensures DotIndex(s) == |s|
  {
    if s != [] {
      DotIndexAbsent(s[1..]);
    }
  }

  /** The two decimals of a price, as digits. */
  function Cents(cents: nat): (s: string)
    requires cents < 100
    ensures |s| == 2 && AllDigits(s) && DigitsValue(s) == cents
  {
    var s := [Digit(cents / 10), Digit(cents % 10)];
    assert s[..1] == [Digit(cents / 10)];
    assert [Digit(cents / 10)][..0] == [];
    assert DigitsValue(s[..1]) == cents / 10;
    s
  }

  /**
   * A price as the page renders it: "$", the whole part grouped in
   * thousands with `.`, a `,` and two decimals ("$1.140,50").
   */
  function Localized(whole: nat, cents: nat): string
    requires cents < 100
  {
    "$" + Grouped(whole) + "," + Cents(cents)
  }

  /** Cleaning a localized price leaves the ungrouped digits, a `.` and the decimals. */
  lemma {:induction false} CleanLocalized(whole: nat, cents: nat)
    requires cents < 100
    ensures Clean(Localized(whole, cents)) == RemoveChar(Grouped(whole), '.') + "." + Cents(cents)
  {
    var g := Grouped(whole);
    var dd := Cents(cents);
    var u := RemoveChar(g, '.');
    var c := u + "." + dd;
    ScrubLocalized(whole, cents);
    UngroupedValue(whole);
    assert c[0] == u[0];
    assert c[|c| - 1] == dd[1];
    assert !IsSpace(c[0]) && !IsSpace(c[|c| - 1]);
    StripIdentity(c);
  }

  lemma {:induction false} ScrubLocalized(whole: nat, cents: nat)
    requires cents < 100
    ensures Scrub(Localized(whole, cents)) == RemoveChar(Grouped(whole), '.') + "." + Cents(cents)
  {
    var g := Grouped(whole);
    var dd := Cents(cents);
    ScrubPriceShape(g, dd);
    ScrubGrouped(whole);
    ScrubPlain(dd);
    assert Localized(whole, cents) == "$" + g + "," + dd;
  }

  /** The replacements act on "$", the number, "," and the decimals one piece at a time. */
  lemma {:induction false} ScrubPriceShape(g: string, dd: string)
    ensures Scrub("$" + g + "," + dd) == Scrub(g) + "." + Scrub(dd)
  {
    ScrubAppend("$" + g + ",", dd);
    ScrubAppend("$" + g, ",");
    ScrubAppend("$", g);
    assert Scrub("$") == "";
    assert Scrub(",") == ".";
  }

  lemma ScrubGrouped(n: nat)
    ensures Scrub(Grouped(n)) == RemoveChar(Grouped(n), '.')
  {
    var g := Grouped(n);
    assert '$' !in g && ',' !in g;
    RemoveCharAbsent(g, '$');
    RemoveCharKeepsAbsent(g, '.', ',');
    ReplaceCharAbsent(RemoveChar(g, '.'), ',', '.');
  }

  /** Cleaning and converting a localized price gives back its exact value. */
  lemma {:induction false} LocalizedRoundTrip(whole: nat, cents: nat)
    requires cents < 100
    ensures ParseFloat(Clean(Localized(whole, cents))) == Some(whole as real + cents as real / 100.0)
  {
    ParseCleanedLocalized(whole, cents);
    CleanLocalized(whole, cents);
  }

  lemma {:induction false} ParseCleanedLocalized(whole: nat, cents: nat)
    requires cents < 100
    ensures ParseFloat(RemoveChar(Grouped(whole), '.') + "." + Cents(cents)) == Some(whole as real + cents as real / 100.0)
  {
    var u := RemoveChar(Grouped(whole), '.');
    var dd := Cents(cents);
    UngroupedValue(whole);
    ParseDigitsDotDigits(u, dd);
    assert Pow10(|dd|) == 100;
    assert DigitsValue(u) == whole && DigitsValue(dd) == cents;
  }

  lemma {:induction false} DotIndexPrefix(u: string, rest: string)
    requires '.' !in u && rest != [] && rest[0] == '.'
    ensures DotIndex(u + rest) == |u|
  {
    if u == [] {
      assert u + rest == rest;
    } else {
      assert (u + rest)[1..] == u[1..] + rest;
      DotIndexPrefix(u[1..], rest);
    }
  }
}
