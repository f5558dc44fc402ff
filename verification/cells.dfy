/**
 * Raw CSV cells and their numeric coercion.
 *
 * Both dashboards clean the two count columns with
 * `pd.to_numeric(column, errors='coerce').fillna(0)`: a cell that is
 * already a number keeps it, a text cell is parsed, and a cell that is
 * blank or does not parse becomes NaN and is then filled with 0. The
 * coercion never raises.
 */
module Cells {
  import opened Options

  /** A loosely typed cell as it comes out of the CSV reader. */
  datatype RawCell =
    | Number(n: int)      // a cell the reader already typed as a number
    | Text(text: string)  // a cell the reader kept as text
    | Blank               // an empty cell (NaN after reading)

  predicate IsDigit(ch: char)
  {
    '0' <= ch <= '9'
  }

  predicate AllDigits(s: string)
  {
    forall i :: 0 <= i < |s| ==> IsDigit(s[i])
  }

  /** The integer texts the model accepts: an optional minus sign followed by one or more digits. */
  predicate IsIntText(s: string)
  {
    if 0 < |s| && s[0] == '-' then 1 < |s| && AllDigits(s[1..])
    else 0 < |s| && AllDigits(s)
  }

  /** The value of a string of decimal digits, most significant first. */
  function DigitsValue(s: string): (v: nat)
    requires AllDigits(s)
  {
    if |s| == 0 then 0
    else DigitsValue(s[..|s| - 1]) * 10 + (s[|s| - 1] as int - '0' as int)
  }

  /** The decimal text of a natural number, without leading zeros. */
  function ShowNat(n: nat): (s: string)
    ensures 0 < |s| && AllDigits(s)
    ensures s[0] == '0' ==> n == 0
  {
    if n < 10 then [('0' as int + n) as char]
    else ShowNat(n / 10) + [('0' as int + n % 10) as char]
  }

  /** The decimal text of an integer, with a leading minus sign when negative. */
  function ShowInt(n: int): (s: string)
    ensures IsIntText(s)
    ensures s[0] == '-' <==> n < 0
  {
    if n < 0 then "-" + ShowNat(-n) else ShowNat(n)
  }

  /** Parses an integer text; `None` is the NaN that `errors='coerce'` produces. */
  function ParseInt(s: string): (r: Option<int>)
    ensures r.Some? <==> IsIntText(s)
    ensures r.Some? ==> (r.value < 0 ==> s[0] == '-')
  {
    if 0 < |s| && s[0] == '-' then
      if 1 < |s| && AllDigits(s[1..]) then Some(-(DigitsValue(s[1..]) as int)) else None
    else if 0 < |s| && AllDigits(s) then Some(DigitsValue(s))
    else None
  }

  /** `pd.to_numeric(cell, errors='coerce')`: a number, or `None` for NaN. */
  function ToNumeric(c: RawCell): (r: Option<int>)
    ensures c.Number? ==> r == Some(c.n)
    ensures c.Blank? ==> r == None
    ensures c.Text? ==> (r.Some? <==> IsIntText(c.text))
  {
    match c
    case Number(n) => Some(n)
    case Text(t) => ParseInt(t)
    case Blank => None
  }

  /** `pd.to_numeric(cell, errors='coerce').fillna(0)`: total, never fails. */
  function Coerce(c: RawCell): (v: int)
    ensures c.Number? ==> v == c.n
    ensures c.Blank? ==> v == 0
    ensures c.Text? && !IsIntText(c.text) ==> v == 0
    ensures v != 0 ==> ToNumeric(c).Some?
  {
    ToNumeric(c).GetOr(0)
  }

  /** Reading back the decimal text of a natural number gives the number. */
  lemma {:induction false} DigitsOfShowNat(n: nat)
    ensures DigitsValue(ShowNat(n)) == n
  {
    if n >= 10 {
      var s := ShowNat(n);
      assert s[..|s| - 1] == ShowNat(n / 10);
      DigitsOfShowNat(n / 10);
    }
  }

  /** Parsing is the inverse of printing: `ParseInt(ShowInt(n)) == Some(n)`. */
  lemma ParseShowRoundTrip(n: int)
    ensures ParseInt(ShowInt(n)) == Some(n)
  {
    if n < 0 {
      assert ShowInt(n)[1..] == ShowNat(-n);
      DigitsOfShowNat(-n);
    } else {
      DigitsOfShowNat(n);
    }
  }

  /** A numeric cell keeps its value, whether the reader typed it as a number or kept its text. */
  lemma NumericCellKeepsValue(n: int)
    ensures Coerce(Number(n)) == n
    ensures Coerce(Text(ShowInt(n))) == n
  {
    ParseShowRoundTrip(n);
  }

  /** A leading zero does not change the value of a string of digits. */
  lemma {:induction false} LeadingZeroDigits(s: string)
    requires AllDigits(s)
    ensures AllDigits("0" + s) && DigitsValue("0" + s) == DigitsValue(s)
  {
    if |s| > 0 {
      var t := "0" + s;
      assert t[..|t| - 1] == "0" + s[..|s| - 1];
      LeadingZeroDigits(s[..|s| - 1]);
    }
  }

  /**
   * Integer text with leading zeros, signed or not, parses to the same value
   * as without them; together with `ParseShowRoundTrip` this fixes the value
   * of every accepted text, e.g. "007" is 7 and "-0" is 0.
   */
  lemma LeadingZerosIgnored(s: string)
    requires 0 < |s| && AllDigits(s)
    ensures ParseInt("0" + s) == ParseInt(s)
    ensures ParseInt("-0" + s) == ParseInt("-" + s)
    ensures ParseInt("0") == ParseInt("-0") == Some(0)
  {
    LeadingZeroDigits(s);
    assert ("-0" + s)[1..] == "0" + s;
    assert ("-" + s)[1..] == s;
    assert "-0"[1..] == "0";
  }
}
