/**
 * The dollar amount of an award: `float(value.replace(',', ''))`, where `float`
 * reads an optionally signed decimal numeral, possibly with a fraction, between
 * optional whitespace. Values are exact rationals here, not binary doubles.
 */
module Amount {
  import opened Wrappers
  import PyStr

  /** `10^k`, the place value that scales a fraction of `k` digits. */
  function Pow10(k: nat): (r: nat)
    ensures r >= 1
  {
    if k == 0 then 1 else 10 * Pow10(k - 1)
  }

  /** The value of the numeral `ip.fp`, where either part may be empty. */
  function DecimalValue(ip: string, fp: string): (r: real)
    requires PyStr.AllDigits(ip) && PyStr.AllDigits(fp)
    ensures r >= 0.0
  {
    PyStr.DigitsValue(ip) as real + PyStr.DigitsValue(fp) as real / Pow10(|fp|) as real
  }

  /** An unsigned numeral: digits, or digits around one `.` with at least one digit in all. */
  function ParseUnsigned(t: string): (r: Option<real>)
    ensures r.Some? ==> r.value >= 0.0
    ensures r.Some? ==> DecimalText(t)
  {
    var k := PyStr.IndexOf(t, '.');
    if k == |t| then
      if t != [] && PyStr.AllDigits(t) then Some(PyStr.DigitsValue(t) as real) else None
    else
      var ip, fp := t[..k], t[k + 1..];
      if PyStr.AllDigits(ip) && PyStr.AllDigits(fp) && (ip != [] || fp != []) then
        assert forall i :: 0 <= i < |t| && i != k ==> (i < k ==> t[i] == ip[i]) && (i > k ==> t[i] == fp[i - k - 1]);
        Some(DecimalValue(ip, fp))
      else None
  }

  /** Digits and points only, and not empty. */
  predicate DecimalText(t: string) {
    t != [] && forall i :: 0 <= i < |t| ==> PyStr.IsDigit(t[i]) || t[i] == '.'
  }

  /** A numeral character, as far as `float` is concerned here. */
  predicate IsNumeralChar(c: char) {
    PyStr.IsDigit(c) || c == '.' || c == '+' || c == '-'
  }

  /** Numeral characters only, and not empty. */
  predicate Numeral(t: string) {
    t != [] && forall i :: 0 <= i < |t| ==> IsNumeralChar(t[i])
  }

  /** An optional sign (`k == 1`) followed by digits and points is a numeral. */
  lemma SignedNumeral(t: string, k: nat)
    requires k <= |t| && (k == 1 ==> t[0] == '+' || t[0] == '-') && (k == 0 || k == 1)
    requires DecimalText(t[k..])
    ensures Numeral(t)
  {
    forall i | 0 <= i < |t| ensures IsNumeralChar(t[i]) {
      if i >= k {
        assert t[i] == t[k..][i - k];
      }
    }
  }

  /**
   * Python's `float(s)` for decimal numerals: surrounding whitespace is ignored and
   * an optional sign may lead; `None` where `float` raises `ValueError`, which is the
   * case for any text holding a thousands separator.
   */
  function ParseFloat(s: string): (r: Option<real>)
    ensures r.Some? ==> Numeral(PyStr.Strip(s))
  {
    SignedValue(PyStr.Strip(s))
  }

  /** A stripped text read as an optional sign followed by an unsigned numeral. */
  function SignedValue(t: string): (r: Option<real>)
    ensures r.Some? ==> Numeral(t)
  {
    var k: nat := if t != [] && (t[0] == '+' || t[0] == '-') then 1 else 0;
    match ParseUnsigned(t[k..])
    case None => None
    case Some(x) =>
      SignedNumeral(t, k);
      Some(if k == 1 && t[0] == '-' then -x else x)
  }

  /** The amount the loader stores for a captured amount text. */
  function AmountOf(v: string): Option<real> {
    ParseFloat(PyStr.RemoveChar(v, ','))
  }

  /** A text with a comma in it is not a number to `float`. */
  lemma CommaRejected(s: string)
    requires ',' in PyStr.Strip(s)
    ensures ParseFloat(s).None?
  {
    CommaNotNumeral(PyStr.Strip(s));
  }

  /** A comma is not a numeral character. */
  lemma CommaNotNumeral(t: string)
    requires ',' in t
    ensures !Numeral(t)
  {
    var i :| 0 <= i < |t| && t[i] == ',';
    assert !IsNumeralChar(t[i]);
  }

  /** A plain run of digits is read as the integer it spells. */
  lemma DigitsParse(ds: string)
    requires ds != [] && PyStr.AllDigits(ds)
    ensures ParseFloat(ds) == Some(PyStr.DigitsValue(ds) as real)
  {
    StripDigits(ds);
    ParseTrimmed(ds);
    NotInDigits(ds, '.');
    assert PyStr.IsDigit(ds[0]);
    assert ds[0..] == ds;
  }

  /** A character that is not a digit does not occur in a run of digits. */
  lemma NotInDigits(ds: string, c: char)
    requires PyStr.AllDigits(ds) && !PyStr.IsDigit(c)
    ensures c !in ds
  {
    forall i | 0 <= i < |ds| ensures ds[i] != c {
      assert PyStr.IsDigit(ds[i]);
    }
  }

  /**
   * A decimal numeral with a point, optionally signed, is read as the value
   * `x` it spells, negated after a `-`: `-12.5`, `+.5`, `3.`.
   */
  lemma DecimalParse(sign: string, ip: string, fp: string, x: real)
    requires sign == "" || sign == "+" || sign == "-"
    requires PyStr.AllDigits(ip) && PyStr.AllDigits(fp) && (ip != [] || fp != [])
    requires x == DecimalValue(ip, fp)
    ensures ParseFloat(sign + ip + "." + fp) == Some(if sign == "-" then -x else x)
  {
    var u := ip + "." + fp;
    UnsignedDecimal(ip, fp);
    DecimalEnds(ip, fp);
    SignedText(sign, u, sign + ip + "." + fp, x);
  }

  /** A numeral with a point starts and ends with a digit or the point. */
  lemma DecimalEnds(ip: string, fp: string)
    requires PyStr.AllDigits(ip) && PyStr.AllDigits(fp)
    ensures var u := ip + "." + fp;
            && (u[0] == '.' || PyStr.IsDigit(u[0]))
            && (u[|u| - 1] == '.' || PyStr.IsDigit(u[|u| - 1]))
  {
  }

  /** An optional sign before an unsigned numeral without surrounding whitespace. */
  lemma SignedText(sign: string, u: string, s: string, x: real)
    requires sign == "" || sign == "+" || sign == "-"
    requires u != [] && (u[0] == '.' || PyStr.IsDigit(u[0])) && (u[|u| - 1] == '.' || PyStr.IsDigit(u[|u| - 1]))
    requires s == sign + u && ParseUnsigned(u) == Some(x)
    ensures ParseFloat(s) == Some(if sign == "-" then -x else x)
  {
    SignedTrimmed(sign, u, s);
    StripTrimmed(s);
    SignedOf(sign, u, s, x);
    ParseTrimmed(s);
  }

  lemma SignedTrimmed(sign: string, u: string, s: string)
    requires sign == "" || sign == "+" || sign == "-"
    requires u != [] && (u[0] == '.' || PyStr.IsDigit(u[0])) && (u[|u| - 1] == '.' || PyStr.IsDigit(u[|u| - 1]))
    requires s == sign + u
    ensures PyStr.IsTrimmed(s)
  {
    assert s[0] == if sign == "" then u[0] else sign[0];
    assert s[|s| - 1] == u[|u| - 1];
  }

  lemma StripTrimmed(s: string)
    requires PyStr.IsTrimmed(s)
    ensures PyStr.Strip(s) == s
  {
    PyStr.StripPadded([], s, []);
    assert [] + s + [] == s;
  }

  /** A text without surrounding whitespace is read as it stands. */
  lemma ParseTrimmed(s: string)
    requires PyStr.Strip(s) == s
    ensures ParseFloat(s) == SignedValue(s)
  {
  }

  /** The sign is read off and the rest is read as an unsigned numeral. */
  lemma SignedOf(sign: string, u: string, s: string, x: real)
    requires sign == "" || sign == "+" || sign == "-"
    requires u != [] && (u[0] == '.' || PyStr.IsDigit(u[0]))
    requires s == sign + u && ParseUnsigned(u) == Some(x)
    ensures SignedValue(s) == Some(if sign == "-" then -x else x)
  {
    var k: nat := |sign|;
    assert k == if s != [] && (s[0] == '+' || s[0] == '-') then 1 else 0 by {
      if sign == "" {
        assert s[0] == u[0];
      } else {
        assert s[0] == sign[0];
      }
    }
    assert s[k..] == u;
    assert (k == 1 && s[0] == '-') <==> sign == "-" by {
      if k == 1 {
        assert s[0] == sign[0] && sign == [sign[0]];
      }
    }
  }

  /** Digits, a point and digits are read as the value they spell. */
  lemma UnsignedDecimal(ip: string, fp: string)
    requires PyStr.AllDigits(ip) && PyStr.AllDigits(fp) && (ip != [] || fp != [])
    ensures ParseUnsigned(ip + "." + fp) == Some(DecimalValue(ip, fp))
  {
    var u := ip + "." + fp;
    NotInDigits(ip, '.');
    assert u == ip + (['.'] + fp);
    PyStr.IndexOfAfter(ip, '.', fp);
    assert u[..|ip|] == ip && u[|ip| + 1..] == fp;
  }

  lemma StripDigits(ds: string)
    requires ds != [] && PyStr.AllDigits(ds)
    ensures PyStr.Strip(ds) == ds
  {
    assert PyStr.IsTrimmed(ds) by {
      assert PyStr.IsDigit(ds[0]) && PyStr.IsDigit(ds[|ds| - 1]);
    }
    PyStr.StripPadded([], ds, []);
    assert [] + ds + [] == ds;
  }

  /**
   * `ds` written with a `,` before every group of three digits counted from the
   * right, as amounts appear in award files (`1,234,567`).
   */
  function Grouped(ds: string): (r: string)
    decreases |ds|
  {
    if |ds| <= 3 then ds else Grouped(ds[..|ds| - 3]) + [','] + ds[|ds| - 3..]
  }

  /** Removing the separators gives back the digits. */
  lemma {:induction false} UngroupGrouped(ds: string)
    requires PyStr.AllDigits(ds)
    ensures PyStr.RemoveChar(Grouped(ds), ',') == ds
    decreases |ds|
  {
    if |ds| <= 3 {
      PyStr.RemoveAbsent(ds, ',');
    } else {
      var hi, lo := ds[..|ds| - 3], ds[|ds| - 3..];
      UngroupGrouped(hi);
      NotInDigits(lo, ',');
      UngroupStep(Grouped(hi), lo);
      assert hi + lo == ds;
    }
  }

  /** A separator and a group without separators: the separator goes, the group stays. */
  lemma UngroupStep(g: string, lo: string)
    requires ',' !in lo
    ensures PyStr.RemoveChar(g + [','] + lo, ',') == PyStr.RemoveChar(g, ',') + lo
  {
    PyStr.RemoveAppend(g + [','], lo, ',');
    PyStr.RemoveAppend(g, [','], ',');
    assert PyStr.RemoveChar([','], ',') == [] by {
      assert [','][1..] == [];
    }
    PyStr.RemoveAbsent(lo, ',');
  }

  /** An amount written with thousands separators is stored as the number it spells. */
  lemma GroupedAmount(ds: string)
    requires ds != [] && PyStr.AllDigits(ds)
    ensures AmountOf(Grouped(ds)) == Some(PyStr.DigitsValue(ds) as real)
  {
    UngroupGrouped(ds);
    DigitsParse(ds);
  }

  /** `123,456` is stored as 123456. */
  lemma SampleAmount()
    ensures AmountOf("123,456") == Some(123456.0)
  {
    SampleGrouped();
    SampleDigits();
    GroupedAmount("123456");
  }

  lemma SampleGrouped()
    ensures Grouped("123456") == "123,456"
  {
    assert "123456"[..3] == "123" && "123456"[3..] == "456";
  }

  lemma SampleDigits()
    ensures PyStr.DigitsValue("123456") == 123456
  {
    assert PyStr.DigitsValue("1") == 1 by { assert "1"[..0] == ""; }
    assert PyStr.DigitsValue("12") == 12 by { assert "12"[..1] == "1"; }
    assert PyStr.DigitsValue("123") == 123 by { assert "123"[..2] == "12"; }
    assert PyStr.DigitsValue("1234") == 1234 by { assert "1234"[..3] == "123"; }
    assert PyStr.DigitsValue("12345") == 12345 by { assert "12345"[..4] == "1234"; }
    assert "123456"[..5] == "12345";
  }
}
