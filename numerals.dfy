/**
 * Python's `int(text)` on a decimal string and `str(n)` on an integer, as the
 * bot uses them: `int()` reads the seconds argument of `/approve`, and `str()`
 * turns user ids into the keys of the entitlement file and the current time
 * into the name of an extraction directory.
 */
module Numerals {
  import opened Wrappers
  import opened Text

  predicate IsDigit(c: char) { '0' <= c <= '9' }

  predicate AllDigits(s: string) {
    forall i :: 0 <= i < |s| ==> IsDigit(s[i])
  }

  function DigitValue(c: char): (d: nat)
    requires IsDigit(c)
    ensures d < 10
  {
    (c as int) - ('0' as int)
  }

  function DigitChar(d: nat): (c: char)
    requires d < 10
    ensures IsDigit(c) && DigitValue(c) == d
  {
    ('0' as int + d) as char
  }

  /** The value of a string of decimal digits, most significant first. */
  function DigitsValue(ds: string): nat
    requires AllDigits(ds)
  {
    if ds == [] then 0 else 10 * DigitsValue(ds[..|ds| - 1]) + DigitValue(ds[|ds| - 1])
  }

  /**
   * The digit part Python's `int()` accepts: at least one digit, and single
   * underscores allowed only between two digits (`1_000`, not `_1`, `1_` or `1__0`).
   */
  predicate IsDigitRun(s: string) {
    && s != []
    && IsDigit(s[0])
    && IsDigit(s[|s| - 1])
    && (forall i :: 0 <= i < |s| ==> IsDigit(s[i]) || s[i] == '_')
    && (forall i :: 0 <= i < |s| - 1 && s[i] == '_' ==> s[i + 1] != '_')
  }

  /** The digits of a run with its underscores dropped. */
  function RunDigits(s: string): (ds: string)
    requires IsDigitRun(s)
    ensures AllDigits(ds) && ds != []
  {
    var ds := RemoveAll(s, '_');
    assert s[0] in ds by { assert multiset(ds)[s[0]] == multiset(s)[s[0]] > 0; }
    assert AllDigits(ds) by {
      forall i | 0 <= i < |ds| ensures IsDigit(ds[i]) {
        assert ds[i] in s && ds[i] != '_';
      }
    }
    ds
  }

  /** The sign-stripped body of an already whitespace-stripped numeral. */
  function Unsigned(t: string): string {
    if t != [] && (t[0] == '-' || t[0] == '+') then t[1..] else t
  }

  /**
   * The whitespace `int()` skips around a numeral. CPython first turns
   * non-ASCII whitespace into spaces and then skips ASCII whitespace only,
   * so the separators U+001C to U+001F, which `str.strip()` removes, stay
   * in place and make the numeral invalid.
   */
  predicate IsIntSpace(c: char) {
    IsSpace(c) && !('\U{001C}' <= c <= '\U{001F}')
  }

  /** The text `int()` reads as a numeral: `s` without surrounding `int()` whitespace. */
  function NumeralText(s: string): string {
    StripBy(s, IsIntSpace)
  }

  /**
   * `int(s)` on a string: surrounding whitespace is ignored, an optional sign,
   * then a digit run; anything else raises `ValueError`, modelled as `None`.
   * The value is the digit run's decimal value, with underscores dropped,
   * negated after a `-`.
   */
  function ParseInt(s: string): (r: Option<int>)
    ensures r.Some? <==> IsDigitRun(Unsigned(NumeralText(s)))
    ensures r.Some? ==>
      var t := NumeralText(s);
      var n: int := DigitsValue(RunDigits(Unsigned(t)));
      r.value == if t[0] == '-' then -n else n
  {
    ParseNumeral(NumeralText(s))
  }

  /** A numeral made of digits alone reads as its decimal value. */
  lemma ParseIntPlain(s: string)
    requires NumeralText(s) != [] && AllDigits(NumeralText(s))
    ensures ParseInt(s) == Some(DigitsValue(NumeralText(s)))
  {
    var t := NumeralText(s);
    assert IsDigit(t[0]);
    assert Unsigned(t) == t;
    DigitsAreRun(t);
    assert ParseNumeral(t) == Some(DigitsValue(t));
  }

  /** `int()` on text with no surrounding whitespace: an optional sign, then a digit run. */
  function ParseNumeral(t: string): Option<int> {
    var body := Unsigned(t);
    if IsDigitRun(body) then
      var n: int := DigitsValue(RunDigits(body));
      Some(if t[0] == '-' then -n else n)
    else None
  }

  /** `int()` ignores the whitespace it skips around the numeral. */
  lemma ParseIntIgnoresSpace(p: string, t: string, q: string)
    requires Every(p, IsIntSpace) && Every(q, IsIntSpace)
    ensures ParseInt(p + t + q) == ParseInt(t)
  {
    StripAbsorbsSpace(p, t, q, IsIntSpace);
    assert ParseInt(p + t + q) == ParseNumeral(NumeralText(t));
  }

  /** An information separator (U+001C) before a numeral makes `int()` fail, although `strip()` would remove it. */
  lemma ParseIntRejectsSeparator(ds: string)
    ensures Strip("\U{001C}" + ds) == Strip(ds)
    ensures ParseInt("\U{001C}" + ds) == None
  {
    var s := "\U{001C}" + ds;
    assert Strip(s) == Strip(ds) by {
      assert Every("\U{001C}", IsSpace) && Every([], IsSpace);
      StripAbsorbsSpace("\U{001C}", ds, [], IsSpace);
      assert s + [] == s;
    }
    SeparatorStays(ds);
  }

  /** `int()` keeps a leading information separator, and a numeral cannot start with one. */
  lemma SeparatorStays(ds: string)
    ensures ParseInt("\U{001C}" + ds) == None
  {
    var s := "\U{001C}" + ds;
    var t := NumeralText(s);
    assert !IsIntSpace(s[0]);
    assert t != [] && t[0] == '\U{001C}';
    assert Unsigned(t) == t;
  }

  /** `int()` reads a sign before a digit string: `+` keeps the value, `-` negates it. */
  lemma ParseIntSigned(ds: string)
    requires ds != [] && AllDigits(ds)
    ensures ParseInt("+" + ds) == Some(DigitsValue(ds))
    ensures ParseInt("-" + ds) == Some(-(DigitsValue(ds) as int))
  {
    SignedNumeral('+', ds);
    SignedNumeral('-', ds);
    var plus, minus := "+" + ds, "-" + ds;
    assert plus[|plus| - 1] == ds[|ds| - 1] && minus[|minus| - 1] == ds[|ds| - 1];
    BareNumeral(plus);
    BareNumeral(minus);
  }

  /** A sign followed by a digit string reads as the digit string's value, negated after `-`. */
  lemma SignedNumeral(sign: char, ds: string)
    requires sign == '+' || sign == '-'
    requires ds != [] && AllDigits(ds)
    ensures ParseNumeral([sign] + ds) == Some(if sign == '-' then -(DigitsValue(ds) as int) else DigitsValue(ds))
  {
    var t := [sign] + ds;
    assert t[0] == sign;
    assert Unsigned(t) == ds by { assert t[1..] == ds; }
    assert IsDigitRun(ds) && RunDigits(ds) == ds by { DigitsAreRun(ds); }
    assert ParseNumeral(t).Some?;
    assert ParseNumeral(t).value == if sign == '-' then -(DigitsValue(ds) as int) else DigitsValue(ds);
  }

  /** A numeral that starts with a sign or a digit and ends with a digit has no whitespace to strip. */
  lemma BareNumeral(t: string)
    requires t != [] && (IsDigit(t[0]) || t[0] == '+' || t[0] == '-') && IsDigit(t[|t| - 1])
    ensures NumeralText(t) == t
  {
  }

  /** `int()` drops a single underscore between digits: `1_000` reads as `1000`. */
  lemma ParseIntUnderscore(a: string, b: string)
    requires a != [] && AllDigits(a) && b != [] && AllDigits(b)
    ensures ParseInt(a + "_" + b) == Some(DigitsValue(a + b))
  {
    var s := a + "_" + b;
    UnderscoreRun(a, b);
    assert s[0] == a[0] && s[|s| - 1] == b[|b| - 1];
    BareNumeral(s);
    assert Unsigned(s) == s;
    assert ParseNumeral(s) == Some(DigitsValue(a + b));
  }

  /** Two digit strings joined by one underscore form a digit run whose digits are the two strings. */
  lemma UnderscoreRun(a: string, b: string)
    requires a != [] && AllDigits(a) && b != [] && AllDigits(b)
    ensures IsDigitRun(a + "_" + b) && RunDigits(a + "_" + b) == a + b
  {
    UnderscoreIsRun(a, b);
    DropUnderscore(a, b);
  }

  /** `a_b` is a digit run, and its only underscore sits between `a` and `b`. */
  lemma UnderscoreIsRun(a: string, b: string)
    requires a != [] && AllDigits(a) && b != [] && AllDigits(b)
    ensures IsDigitRun(a + "_" + b)
  {
    var s := a + "_" + b;
    assert s[0] == a[0] && s[|s| - 1] == b[|b| - 1];
    forall i | 0 <= i < |s| ensures IsDigit(s[i]) || s[i] == '_' ensures s[i] == '_' <==> i == |a| {
      if i < |a| { assert s[i] == a[i]; } else if i > |a| { assert s[i] == b[i - |a| - 1]; }
    }
  }

  /** Dropping the underscores of `a_b` leaves `a` followed by `b`. */
  lemma DropUnderscore(a: string, b: string)
    requires AllDigits(a) && AllDigits(b)
    ensures RemoveAll(a + "_" + b, '_') == a + b
  {
    assert '_' !in a by { assert forall i :: 0 <= i < |a| ==> a[i] != '_'; }
    assert '_' !in b by { assert forall i :: 0 <= i < |b| ==> b[i] != '_'; }
    assert RemoveAll("_", '_') == [] by {
      assert "_"[1..] == [];
    }
    assert RemoveAll(a + "_", '_') == a by {
      RemoveAllConcat(a, "_", '_');
    }
    RemoveAllConcat(a + "_", b, '_');
  }

  /** `str(n)` for `n >= 0`: no leading zero unless `n` is zero. */
  function NatToString(n: nat): (s: string)
    ensures s != [] && AllDigits(s)
    ensures DigitsValue(s) == n
    ensures s[0] == '0' ==> s == "0"
  {
    if n < 10 then [DigitChar(n)]
    else
      var s := NatToString(n / 10) + [DigitChar(n % 10)];
      assert s[..|s| - 1] == NatToString(n / 10);
      assert s[0] == NatToString(n / 10)[0];
      s
  }

  /** `str(n)`: a minus sign before the digits of a negative number. */
  function IntToString(n: int): (s: string)
    ensures s != []
    ensures s[0] == '-' <==> n < 0
    ensures n >= 0 ==> AllDigits(s) && DigitsValue(s) == n
    ensures n < 0 ==> AllDigits(s[1..]) && DigitsValue(s[1..]) == -n
    ensures n >= 0 && s[0] == '0' ==> n == 0
    ensures n == 0 ==> s == "0"
    ensures n < 0 ==> |s| >= 2 && s[1] != '0'
  {
    if n < 0 then "-" + NatToString(-n) else NatToString(n)
  }

  /** A digit string is its own digit run, with nothing to drop. */
  lemma DigitsAreRun(ds: string)
    requires ds != [] && AllDigits(ds)
    ensures IsDigitRun(ds) && RunDigits(ds) == ds
  {
    assert forall i :: 0 <= i < |ds| ==> ds[i] != '_';
  }

  /** `int(str(n)) == n`: reading back a rendered integer gives the integer. */
  lemma ParseIntOfIntToString(n: int)
    ensures ParseInt(IntToString(n)) == Some(n)
  {
    var s := IntToString(n);
    var digits := NatToString(if n < 0 then -n else n);
    assert !IsIntSpace(s[0]) && !IsIntSpace(s[|s| - 1]);
    assert NumeralText(s) == s;
    assert Unsigned(s) == digits;
    DigitsAreRun(digits);
  }

  /**
   * `str` is injective on integers, so keying the entitlement file by
   * `str(user_id)` keeps distinct users apart.
   */
  lemma IntToStringInjective(a: int, b: int)
    requires IntToString(a) == IntToString(b)
    ensures a == b
  {
    ParseIntOfIntToString(a);
    ParseIntOfIntToString(b);
  }
}
