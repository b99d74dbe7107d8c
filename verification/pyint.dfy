/** Python's `int(s, base)` on text, for the two bases the generator uses: base 0
    (the literal's own prefix picks the base) when coercing `--var` values, and base 8
    when turning a helper's mode string into permission bits.  The model follows
    CPython's `PyLong_FromString` for ASCII input: surrounding whitespace is ignored, one
    sign is allowed, a `0x`/`0o`/`0b` prefix may be followed by one underscore, single
    underscores may separate digits, and in base 0 a decimal literal may not start with
    `0` unless its value is zero. The limit on the number of decimal digits that newer
    Python versions impose is not part of this model. */
module PyInt {
  import opened Results

  /** The whitespace CPython skips around an integer literal (ASCII part). */
  predicate IsSpace(c: char)
  {
    c == ' ' || c == '\t' || c == '\n' || c == '\r' || c == '\U{000B}' || c == '\U{000C}'
  }

  function StripLeft(s: string): (r: string)
    ensures |r| <= |s| && r == s[|s| - |r|..]
    ensures r == [] || !IsSpace(r[0])
    ensures forall i :: 0 <= i < |s| - |r| ==> IsSpace(s[i])
  {
    if s != [] && IsSpace(s[0]) then StripLeft(s[1..]) else s
  }

  function StripRight(s: string): (r: string)
    ensures |r| <= |s| && r == s[..|r|]
    ensures r == [] || !IsSpace(r[|r| - 1])
    ensures forall i :: |r| <= i < |s| ==> IsSpace(s[i])
  {
    if s != [] && IsSpace(s[|s| - 1]) then StripRight(s[..|s| - 1]) else s
  }

  /** CPython's digit table: 0-9, then letters of either case as 10-35; 37 marks a
      character that is a digit in no base. */
  function DigitValue(c: char): (d: nat)
    ensures d <= 35 || d == 37
  {
    if '0' <= c <= '9' then (c - '0') as nat
    else if 'a' <= c <= 'z' then (c - 'a') as nat + 10
    else if 'A' <= c <= 'Z' then (c - 'A') as nat + 10
    else 37
  }

  /** The digit part of a literal: digits of the base, single underscores only between
      two digits. */
  predicate ValidDigits(u: string, base: nat)
  {
    && |u| > 0
    && u[0] != '_'
    && u[|u| - 1] != '_'
    && (forall i :: 0 <= i < |u| ==> u[i] == '_' || DigitValue(u[i]) < base)
    && (forall i :: 0 <= i < |u| - 1 ==> u[i] != '_' || u[i + 1] != '_')
  }

  /** Value of a digit string, most significant digit first, underscores ignored. */
  function DigitsValue(u: string, base: nat): nat
  {
    if u == [] then 0
    else if u[|u| - 1] == '_' then DigitsValue(u[..|u| - 1], base)
    else DigitsValue(u[..|u| - 1], base) * base + DigitValue(u[|u| - 1])
  }

  /** The base a base-0 literal announces by its prefix (10 when it has none). */
  function PrefixBase(u: string): (b: nat)
    ensures b == 2 || b == 8 || b == 10 || b == 16
  {
    if |u| >= 2 && u[0] == '0' && (u[1] == 'x' || u[1] == 'X') then 16
    else if |u| >= 2 && u[0] == '0' && (u[1] == 'o' || u[1] == 'O') then 8
    else if |u| >= 2 && u[0] == '0' && (u[1] == 'b' || u[1] == 'B') then 2
    else 10
  }

  /** Drops a prefix matching `base`, and one underscore after it. */
  function SkipPrefix(u: string, base: nat): (r: string)
    ensures |r| <= |u| && r == u[|u| - |r|..]
  {
    var prefixed :=
      |u| >= 2 && u[0] == '0' &&
      ((base == 16 && (u[1] == 'x' || u[1] == 'X')) ||
       (base == 8 && (u[1] == 'o' || u[1] == 'O')) ||
       (base == 2 && (u[1] == 'b' || u[1] == 'B')));
    if !prefixed then u
    else if |u| > 2 && u[2] == '_' then u[3..]
    else u[2..]
  }

  /** `int(s, base)`; `None` where Python raises `ValueError`. */
  function ParseInt(s: string, base: nat): (r: Option<int>)
    requires base == 0 || 2 <= base <= 36
  {
    Signed(StripRight(StripLeft(s)), base)
  }

  /** A stripped literal: an optional sign, then the magnitude. */
  function Signed(t: string, base: nat): Option<int>
    requires base == 0 || 2 <= base <= 36
  {
    if |t| > 0 && (t[0] == '-' || t[0] == '+') then
      match ParseMagnitude(t[1..], base)
      case Some(v) => var w: int := v; Some(if t[0] == '-' then -w else w)
      case None => None
    else
      match ParseMagnitude(t, base)
      case Some(v) => Some(v)
      case None => None
  }

  /** The unsigned part of a literal, after whitespace and sign are gone. */
  function ParseMagnitude(u: string, base: nat): (r: Option<nat>)
    requires base == 0 || 2 <= base <= 36
  {
    var b := if base == 0 then PrefixBase(u) else base;
    var leadingZero := base == 0 && b == 10 && |u| > 0 && u[0] == '0';
    var digits := SkipPrefix(u, b);
    if !ValidDigits(digits, b) then None
    else if leadingZero && DigitsValue(digits, b) != 0 then None
    else Some(DigitsValue(digits, b))
  }

  /** The lower-case digit character for `d` (as Python's `format` writes it). */
  function DigitChar(d: nat): (c: char)
    requires d < 36
    ensures DigitValue(c) == d
    ensures c != '_'
  {
    if d < 10 then '0' + d as char else 'a' + (d - 10) as char
  }

  /** The canonical digits of `n` in `base`: no leading zero, "0" for zero. */
  function Digits(n: nat, base: nat): (r: string)
    requires 2 <= base <= 36
    ensures |r| >= 1
    decreases n
  {
    if n < base then [DigitChar(n)]
    else
      DivMod(n, base);
      Digits(n / base, base) + [DigitChar(n % base)]
  }

  /** Python's `str(n)` for an integer. */
  function Decimal(n: int): string
  {
    if n < 0 then "-" + Digits(-n, 10) else Digits(n, 10)
  }

  /** Every character of the canonical digits is a digit of the base. */
  lemma {:induction false} DigitsAreDigits(n: nat, base: nat)
    requires 2 <= base <= 36
    ensures forall i :: 0 <= i < |Digits(n, base)| ==>
      Digits(n, base)[i] != '_' && DigitValue(Digits(n, base)[i]) < base
    decreases n
  {
    if n >= base {
      DigitsAreDigits(n / base, base);
    }
  }

  /** Canonical digits form a valid digit group without whitespace. */
  lemma DigitsValid(n: nat, base: nat)
    requires 2 <= base <= 36
    ensures ValidDigits(Digits(n, base), base)
    ensures forall i :: 0 <= i < |Digits(n, base)| ==> !IsSpace(Digits(n, base)[i])
  {
    DigitsAreDigits(n, base);
  }

  lemma DivMod(n: nat, base: nat)
    requires 2 <= base
    ensures n == (n / base) * base + n % base
    ensures n >= base ==> 0 < n / base < n
  {
    if n >= base {
      var q := n / base;
      assert q * base <= n;
    }
  }

  lemma DigitsValueSnoc(q: string, c: char, base: nat)
    requires c != '_'
    ensures DigitsValue(q + [c], base) == DigitsValue(q, base) * base + DigitValue(c)
  {
    assert (q + [c])[..|q|] == q;
  }

  /** The value of the canonical digits is the number. */
  lemma {:induction false} DigitsValueCorrect(n: nat, base: nat)
    requires 2 <= base <= 36
    ensures DigitsValue(Digits(n, base), base) == n
    decreases n
  {
    if n >= base {
      var hi, lo := n / base, n % base;
      DivMod(n, base);
      var q := Digits(hi, base);
      var c := DigitChar(lo);
      assert Digits(n, base) == q + [c];
      DigitsValueCorrect(hi, base);
      DigitsValueSnoc(q, c, base);
      assert DigitValue(c) == lo;
      DivMod(n, base);
      assert DigitsValue(Digits(n, base), base) == hi * base + lo;
    }
  }

  /** Canonical digits start with '0' only for zero. */
  lemma {:induction false} DigitsNoLeadingZero(n: nat, base: nat)
    requires 2 <= base <= 36
    ensures Digits(n, base)[0] == '0' ==> n == 0
    decreases n
  {
    if n >= base {
      DigitsNoLeadingZero(n / base, base);
    }
  }

  /** Stripping changes nothing when neither end is whitespace. */
  lemma StripNoSpace(s: string)
    requires s == [] || (!IsSpace(s[0]) && !IsSpace(s[|s| - 1]))
    ensures StripRight(StripLeft(s)) == s
  {
  }

  /** A literal whose second character is a digit of a base up to 10 carries no prefix. */
  lemma NoPrefix(d: string, base: nat)
    requires 2 <= base <= 10
    requires |d| >= 2 ==> DigitValue(d[1]) < base
    ensures SkipPrefix(d, base) == d
    ensures PrefixBase(d) == 10
  {
  }

  /** The second canonical digit, if any, is a digit of the base. */
  lemma SecondDigit(n: nat, base: nat)
    requires 2 <= base <= 36
    ensures |Digits(n, base)| >= 2 ==> DigitValue(Digits(n, base)[1]) < base
    ensures Digits(n, base)[0] != '-' && Digits(n, base)[0] != '+'
  {
    DigitsAreDigits(n, base);
  }

  /** A decimal digit group with no superfluous leading zero parses in base 0 to its
      value. */
  lemma ParseDecimalDigits(d: string)
    requires ValidDigits(d, 10)
    requires forall i :: 0 <= i < |d| ==> d[i] != '_'
    requires d[0] == '0' ==> DigitsValue(d, 10) == 0
    ensures ParseMagnitude(d, 0) == Some(DigitsValue(d, 10))
  {
    NoPrefix(d, 10);
  }

  /** The canonical decimal digits of a natural number parse back in base 0. */
  lemma DecimalDigitsParse(m: nat)
    ensures ParseMagnitude(Digits(m, 10), 0) == Some(m)
  {
    DigitsValid(m, 10);
    DigitsValueCorrect(m, 10);
    DigitsNoLeadingZero(m, 10);
    DigitsAreDigits(m, 10);
    ParseDecimalDigits(Digits(m, 10));
  }

  /** Neither end of the canonical digits is whitespace or a sign. */
  lemma DigitsEnds(m: nat, base: nat)
    requires 2 <= base <= 36
    ensures var d := Digits(m, base);
      !IsSpace(d[0]) && !IsSpace(d[|d| - 1]) && d[0] != '-' && d[0] != '+'
  {
    DigitsAreDigits(m, base);
  }

  /** Once whitespace is gone, a leading minus negates the magnitude. */
  lemma MinusParse(s: string, base: nat, m: nat)
    requires base == 0 || 2 <= base <= 36
    requires |s| > 1 && s[0] == '-'
    requires StripRight(StripLeft(s)) == s
    requires ParseMagnitude(s[1..], base) == Some(m)
    ensures ParseInt(s, base) == Some(-(m as int))
  {
    MinusSigned(s, base, m);
  }

  /** A stripped literal with a leading minus is the negated magnitude. */
  lemma MinusSigned(t: string, base: nat, m: nat)
    requires base == 0 || 2 <= base <= 36
    requires |t| > 1 && t[0] == '-'
    requires ParseMagnitude(t[1..], base) == Some(m)
    ensures Signed(t, base) == Some(-(m as int))
  {
  }

  /** A minus sign in front of a literal without trailing whitespace negates the
      parsed magnitude. */
  lemma MinusMagnitude(d: string, m: nat)
    requires |d| > 0 && !IsSpace(d[|d| - 1])
    requires ParseMagnitude(d, 0) == Some(m)
    ensures ParseInt("-" + d, 0) == Some(-(m as int))
  {
    var s := "-" + d;
    assert s[|s| - 1] == d[|d| - 1];
    StripNoSpace(s);
    assert s[1..] == d;
    MinusParse(s, 0, m);
  }

  /** A minus sign in front of canonical digits negates the parsed value. */
  lemma NegativeParse(m: nat)
    ensures ParseInt("-" + Digits(m, 10), 0) == Some(-(m as int))
  {
    DecimalDigitsParse(m);
    DigitsEnds(m, 10);
    MinusMagnitude(Digits(m, 10), m);
  }

  /** Canonical digits parse to their value in base 0. */
  lemma NonNegativeParse(m: nat)
    ensures ParseInt(Digits(m, 10), 0) == Some(m)
  {
    var d := Digits(m, 10);
    DecimalDigitsParse(m);
    DigitsEnds(m, 10);
    PlainParse(d, 0);
  }

  /** `str(n)` of a negative `n` reads back as `n`. */
  lemma NegativeRoundTrip(n: int)
    requires n < 0
    ensures ParseInt(Decimal(n), 0) == Some(n)
  {
    var m: nat := -n;
    var d := Digits(m, 10);
    assert Decimal(n) == "-" + d;
    NegativeParse(m);
    assert ParseInt("-" + d, 0) == Some(n);
  }

  /** Base 0 reads back Python's decimal rendering of every integer. */
  lemma DecimalRoundTrip(n: int)
    ensures ParseInt(Decimal(n), 0) == Some(n)
  {
    if n < 0 {
      NegativeRoundTrip(n);
    } else {
      NonNegativeParse(n);
    }
  }

  /** Base 8 reads back the octal digits of every natural number, as a mode string. */
  lemma OctalRoundTrip(n: nat)
    ensures ParseInt(Digits(n, 8), 8) == Some(n)
  {
    var d := Digits(n, 8);
    DigitsValid(n, 8);
    DigitsValueCorrect(n, 8);
    SecondDigit(n, 8);
    NoPrefix(d, 8);
    StripNoSpace(d);
  }

  /** A literal with no surrounding whitespace and no sign parses to its magnitude. */
  lemma PlainParse(s: string, base: nat)
    requires base == 0 || 2 <= base <= 36
    requires |s| > 0 && !IsSpace(s[0]) && !IsSpace(s[|s| - 1]) && s[0] != '-' && s[0] != '+'
    ensures ParseMagnitude(s, base).None? ==> ParseInt(s, base).None?
    ensures ParseMagnitude(s, base).Some? ==>
      ParseInt(s, base) == Some(ParseMagnitude(s, base).value as int)
  {
    StripNoSpace(s);
  }

  /** Base 0 honours the `0x` prefix: "0x10" is sixteen. */
  lemma HexPrefixExample()
    ensures ParseInt("0x10", 0) == Some(16)
  {
    var s := "0x10";
    assert ParseMagnitude(s, 0) == Some(16) by {
      assert PrefixBase(s) == 16;
      assert SkipPrefix(s, 16) == "10" by { assert s[2..] == "10"; }
      assert DigitsValue("10", 16) == 16 by {
        assert "10"[..1] == "1";
        assert "1"[..0] == "";
      }
    }
    PlainParse(s, 0);
  }

  /** Base 0 rejects a C-style octal literal such as "010" (Python raises ValueError). */
  lemma LeadingZeroExample()
    ensures ParseInt("010", 0) == None
  {
    var s := "010";
    assert ParseMagnitude(s, 0) == None by {
      assert PrefixBase(s) == 10;
      assert SkipPrefix(s, 10) == s;
      assert DigitsValue(s, 10) == 10 by {
        assert s[..2] == "01";
        assert "01"[..1] == "0";
        assert "0"[..0] == "";
      }
    }
    PlainParse(s, 0);
  }

  /** The default helper mode "644" read in base 8 is 420 (rw-r--r--). */
  lemma DefaultModeExample()
    ensures ParseInt("644", 8) == Some(420)
  {
    var s := "644";
    assert ParseMagnitude(s, 8) == Some(420) by {
      assert SkipPrefix(s, 8) == s;
      assert ValidDigits(s, 8);
      assert DigitsValue(s, 8) == 420 by {
        assert s[..2] == "64";
        assert "64"[..1] == "6";
        assert "6"[..0] == "";
      }
    }
    PlainParse(s, 8);
  }
}
