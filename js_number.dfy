/**
 * The number conversions the core applies to user text: `parseFloat`,
 * `Number()` (as used by `isNaN(Number(s))`), `parseFloat(s) || 0`, and
 * `toFixed(2)`. Numbers are exact rationals (`real`); NaN is `None`.
 */
module JsNumber {
  import opened Wrappers
  import opened JsText

  /** The end of the maximal run of decimal digits that starts at `i` */
  function DigitRun(s: string, i: nat): (r: nat)
    requires i <= |s|
    ensures i <= r <= |s|
    ensures forall k {:trigger IsDigit(s[k])} :: i <= k < r ==> IsDigit(s[k])
    ensures r == |s| || !IsDigit(s[r])
    decreases |s| - i
  {
    if i < |s| && IsDigit(s[i]) then DigitRun(s, i + 1) else i
  }

  /** A digit run is determined by where it starts. */
  lemma DigitRunIs(s: string, i: nat, r: nat)
    requires i <= r <= |s|
    requires forall k :: i <= k < r ==> IsDigit(s[k])
    requires r == |s| || !IsDigit(s[r])
    ensures DigitRun(s, i) == r
  {
  }

  /** `m` times ten to the power `e`, one factor of ten at a time */
  function ScaleUp(m: real, e: nat): (r: real)
    ensures m >= 0.0 ==> r >= 0.0
  {
    if e == 0 then m else ScaleUp(m, e - 1) * 10.0
  }

  /** `m` divided by ten to the power `e`, one factor of ten at a time */
  function ScaleDown(m: real, e: nat): (r: real)
    ensures m >= 0.0 ==> r >= 0.0
  {
    if e == 0 then m else ScaleDown(m, e - 1) / 10.0
  }

  /** The value of the digits after a decimal point */
  function Fraction(ds: string): (r: real)
    requires forall k :: 0 <= k < |ds| ==> IsDigit(ds[k])
    ensures 0.0 <= r
  {
    ScaleDown(DigitsValue(ds) as real, |ds|)
  }

  /** A literal recognised at some position: its value and the index just past it */
  datatype Scan = Scan(value: real, end: nat)

  /** An optional ExponentPart at `k`, applied to the mantissa `m`; without one the scan ends at `k` */
  function ScanExponent(s: string, k: nat, m: real): (r: Scan)
    requires k <= |s|
    ensures k <= r.end <= |s|
    ensures m >= 0.0 ==> r.value >= 0.0
    ensures (k == |s| || (s[k] != 'e' && s[k] != 'E')) ==> r == Scan(m, k)
  {
    if k < |s| && (s[k] == 'e' || s[k] == 'E') then
      var signed := k + 1 < |s| && (s[k + 1] == '+' || s[k + 1] == '-');
      var q := if signed then k + 2 else k + 1;
      var e := DigitRun(s, q);
      if e == q then Scan(m, k)
      else if signed && s[k + 1] == '-' then Scan(ScaleDown(m, DigitsValue(s[q..e])), e)
      else Scan(ScaleUp(m, DigitsValue(s[q..e])), e)
    else Scan(m, k)
  }

  /**
   * The longest StrUnsignedDecimalLiteral at `i`: digits with an optional
   * fraction (`5`, `5.`, `5.25`, `.25`) and an optional exponent.
   */
  function ScanUnsigned(s: string, i: nat): (r: Option<Scan>)
    requires i <= |s|
    ensures r.Some? ==> i < r.value.end <= |s| && r.value.value >= 0.0
    ensures r.None? <==> (i == |s| || (!IsDigit(s[i]) && (s[i] != '.' || i + 1 == |s| || !IsDigit(s[i + 1]))))
  {
    var j := DigitRun(s, i);
    var hasDot := j < |s| && s[j] == '.';
    var k := if hasDot then DigitRun(s, j + 1) else j;
    if j == i && (!hasDot || k == j + 1) then None
    else
      var mantissa := DigitsValue(s[i..j]) as real + (if hasDot then Fraction(s[j + 1..k]) else 0.0);
      Some(ScanExponent(s, k, mantissa))
  }

  /** The longest StrDecimalLiteral at `i`: an optional sign and an unsigned literal */
  function ScanSigned(s: string, i: nat): (r: Option<Scan>)
    requires i <= |s|
    ensures r.Some? ==> i < r.value.end <= |s|
  {
    if i < |s| && (s[i] == '+' || s[i] == '-') then
      match ScanUnsigned(s, i + 1)
      case None => None
      case Some(sc) => Some(Scan(if s[i] == '-' then -sc.value else sc.value, sc.end))
    else ScanUnsigned(s, i)
  }

  /** `parseFloat(s)`: leading white space is skipped and the longest decimal prefix is read */
  function ParseFloat(s: string): (r: Option<real>)
    ensures r.Some? ==> exists k :: 0 <= k < |s| && (IsDigit(s[k]))
  {
    match ScanSigned(s, SkipSpace(s, 0))
    case None => None
    case Some(sc) =>
      ParseFloatHasDigit(s, SkipSpace(s, 0));
      Some(sc.value)
  }

  /** A successful scan has read at least one digit. */
  lemma ParseFloatHasDigit(s: string, i: nat)
    requires i <= |s|
    requires ScanSigned(s, i).Some?
    ensures exists k :: 0 <= k < |s| && IsDigit(s[k])
  {
    var start := if i < |s| && (s[i] == '+' || s[i] == '-') then i + 1 else i;
    assert ScanUnsigned(s, start).Some?;
    if IsDigit(s[start]) {
      assert IsDigit(s[start]);
    } else {
      assert IsDigit(s[start + 1]);
    }
  }

  /** `parseFloat(s) || 0`: NaN (and zero) become 0 */
  function ParseFloatOrZero(s: string): (r: real)
    ensures ParseFloat(s).None? ==> r == 0.0
    ensures ParseFloat(s).Some? ==> r == ParseFloat(s).value
  {
    match ParseFloat(s)
    case None => 0.0
    case Some(v) => v
  }

  /** The value of `c` as a digit of `radix`, if it is one */
  function RadixDigit(c: char, radix: nat): Option<nat>
  {
    var d :=
      if '0' <= c <= '9' then c as int - '0' as int
      else if 'a' <= c <= 'f' then c as int - 'a' as int + 10
      else if 'A' <= c <= 'F' then c as int - 'A' as int + 10
      else 16;
    if d < radix then Some(d as nat) else None
  }

  /** The value of a whole string of `radix` digits */
  function RadixValue(ds: string, radix: nat): Option<nat>
  {
    if ds == [] then Some(0)
    else match (RadixValue(ds[..|ds| - 1], radix), RadixDigit(ds[|ds| - 1], radix))
      case (Some(v), Some(d)) => Some(v * radix + d)
      case _ => None
  }

  /** NonDecimalIntegerLiteral: `0x…`, `0o…` or `0b…` with at least one digit */
  function NonDecimal(t: string): Option<real>
  {
    if |t| >= 3 && t[0] == '0' then
      var radix :=
        if t[1] == 'x' || t[1] == 'X' then 16
        else if t[1] == 'o' || t[1] == 'O' then 8
        else if t[1] == 'b' || t[1] == 'B' then 2
        else 0;
      if radix == 0 then None
      else match RadixValue(t[2..], radix)
        case None => None
        case Some(v) => Some(v as real)
    else None
  }

  /**
   * `Number(s)`: the whole trimmed string must be a numeric literal; an empty
   * or all-white-space string is 0. `None` is NaN.
   */
  function NumberValue(s: string): (r: Option<real>)
    ensures Trim(s) == [] ==> r == Some(0.0)
  {
    var t := Trim(s);
    if t == [] then Some(0.0)
    else if NonDecimal(t).Some? then NonDecimal(t)
    else match ScanSigned(t, 0)
      case Some(sc) => if sc.end == |t| then Some(sc.value) else None
      case None => None
  }

  /** `Math.abs(x)` */
  function Abs(x: real): (r: real)
    ensures r >= 0.0 && (r == x || r == -x)
  {
    if x < 0.0 then -x else x
  }

  /** The cent count `toFixed(2)` writes for `x`: |x| in cents, to nearest, ties upward */
  function CentsOfMagnitude(x: real): (n: nat)
    ensures (n as real) - 0.5 <= 100.0 * Abs(x) < (n as real) + 0.5
  {
    (100.0 * Abs(x) + 0.5).Floor
  }

  /** The value `x.toFixed(2)` denotes, in cents: nearest, ties away from zero */
  function RoundCents(x: real): (r: int)
    ensures (r as real) - 0.5 <= 100.0 * x <= (r as real) + 0.5
    ensures x >= 0.0 ==> 100.0 * x < (r as real) + 0.5
    ensures x < 0.0 ==> (r as real) - 0.5 < 100.0 * x
  {
    if x < 0.0 then -(CentsOfMagnitude(x) as int) else CentsOfMagnitude(x)
  }

  /** An amount already in whole cents is not changed by rounding. */
  lemma RoundWholeCents(c: int)
    ensures RoundCents(c as real / 100.0) == c
  {
    var r := RoundCents(c as real / 100.0);
    assert 100.0 * (c as real / 100.0) == c as real;
  }

  /** Rounding is symmetric about zero. */
  lemma RoundCentsOdd(x: real)
    ensures RoundCents(-x) == -RoundCents(x)
  {
  }

  /** The text of a cent count: whole units, a point, exactly two digits */
  function CentsText(n: nat): (r: string)
  {
    NatText(n / 100) + "." + [DigitChar(n % 100 / 10), DigitChar(n % 10)]
  }

  /** `x.toFixed(2)`: a `-` whenever x < 0 (so `-0.00` for small negatives), then |x| in cents */
  function ToFixed2(x: real): (r: string)
    ensures |r| >= 4 && (x < 0.0 <==> r[0] == '-') && r[|r| - 3] == '.'
  {
    (if x < 0.0 then "-" else "") + CentsText(CentsOfMagnitude(x))
  }

  /** The shape of `toFixed(2)` text: optional `-`, digits, a point, two digits. */
  lemma ToFixed2Shape(x: real)
    ensures var r := ToFixed2(x);
      var b := if x < 0.0 then 1 else 0;
      && |r| >= b + 4 && (x < 0.0 <==> r[0] == '-')
      && r[|r| - 3] == '.'
      && (forall k :: b <= k < |r| && k != |r| - 3 ==> IsDigit(r[k]))
      && (r[0] == '0' ==> r[1] == '.')
      && '$' !in r
  {
  }

  /** Two digits read back as their value. */
  lemma TwoDigitsValue(a: nat, c: nat)
    requires a < 10 && c < 10
    ensures DigitsValue([DigitChar(a), DigitChar(c)]) == 10 * a + c
  {
    var ds := [DigitChar(a), DigitChar(c)];
    assert ds[..1] == [DigitChar(a)];
    assert [DigitChar(a)][..0] == [];
    assert DigitsValue([DigitChar(a)]) == a;
  }

  /** Whole units plus hundredths make up a cent count. */
  lemma CentsSplit(n: nat)
    ensures (n / 100) as real + (n % 100) as real / 100.0 == n as real / 100.0
  {
    assert n == 100 * (n / 100) + n % 100;
  }

  /** The unsigned scan of digits, a point and more digits that run to the end of the text. */
  lemma ScanPointDecimal(s: string, b: nat, j: nat)
    requires b < j < |s| - 1 && s[j] == '.'
    requires forall k :: b <= k < j ==> IsDigit(s[k])
    requires forall k :: j < k < |s| ==> IsDigit(s[k])
    ensures ScanUnsigned(s, b) == Some(Scan(DigitsValue(s[b..j]) as real + Fraction(s[j + 1..]), |s|))
  {
    DigitRunIs(s, b, j);
    DigitRunIs(s, j + 1, |s|);
    assert s[j + 1..|s|] == s[j + 1..];
  }

  /** The whole units and the two decimals of a cent text add up to the amount. */
  lemma CentsTextValue(n: nat)
    ensures DigitsValue(NatText(n / 100)) as real + Fraction([DigitChar(n % 100 / 10), DigitChar(n % 10)])
      == n as real / 100.0
  {
    var frac := [DigitChar(n % 100 / 10), DigitChar(n % 10)];
    NatTextValue(n / 100);
    TwoDigitsValue(n % 100 / 10, n % 10);
    assert ScaleDown((n % 100) as real, 1) == (n % 100) as real / 10.0;
    assert Fraction(frac) == (n % 100) as real / 100.0;
    CentsSplit(n);
  }

  /** The unsigned scan reads a cent text to its end, as the amount it denotes. */
  lemma ScanCentsText(s: string, b: nat, n: nat)
    requires b <= |s| && s[b..] == CentsText(n)
    ensures ScanUnsigned(s, b) == Some(Scan(n as real / 100.0, |s|))
  {
    var w := NatText(n / 100);
    var j := b + |w|;
    var frac := [DigitChar(n % 100 / 10), DigitChar(n % 10)];
    assert s[b..] == w + "." + frac;
    assert s[b..j] == w && s[j] == '.' && s[j + 1..] == frac;
    assert forall k :: b <= k < j ==> IsDigit(s[k]) by {
      forall k | b <= k < j
        ensures IsDigit(s[k])
      {
        assert s[k] == w[k - b];
      }
    }
    ScanPointDecimal(s, b, j);
    CentsTextValue(n);
  }

  /** The signed scan reads a cent text, with or without a leading `-`, to its end. */
  lemma ScanSignedCents(s: string, n: nat, negative: bool)
    requires s == (if negative then "-" else "") + CentsText(n)
    ensures ScanSigned(s, 0) == Some(Scan(if negative then -(n as real / 100.0) else n as real / 100.0, |s|))
  {
    var t := CentsText(n);
    if negative {
      assert s == "-" + t;
      assert s[0] == '-' && s[1..] == t;
      ScanCentsText(s, 1, n);
    } else {
      CentsTextLeadingDigit(n);
      assert s[0] != '+' && s[0] != '-';
      ScanCentsText(s, 0, n);
    }
  }

  /** A cent text starts with a digit, so it is not read as signed. */
  lemma CentsTextLeadingDigit(n: nat)
    ensures IsDigit(CentsText(n)[0])
  {
    var w := NatText(n / 100);
    assert CentsText(n)[0] == w[0];
  }

  /** Reading `toFixed(2)` text back with `parseFloat` gives the rounded amount. */
  lemma ParseToFixed2(x: real)
    ensures ParseFloat(ToFixed2(x)) == Some(RoundCents(x) as real / 100.0)
    ensures ScanSigned(ToFixed2(x), 0) == Some(Scan(RoundCents(x) as real / 100.0, |ToFixed2(x)|))
  {
    var n := CentsOfMagnitude(x);
    var s := ToFixed2(x);
    ScanSignedCents(s, n, x < 0.0);
    assert s[0] == '-' || IsDigit(s[0]);
    assert SkipSpace(s, 0) == 0;
  }

  /** `Number()` accepts `toFixed(2)` text and reads the same amount. */
  lemma NumberOfToFixed2(x: real)
    ensures NumberValue(ToFixed2(x)) == Some(RoundCents(x) as real / 100.0)
  {
    var s := ToFixed2(x);
    ToFixed2Ends(x);
    ParseToFixed2(x);
    TrimUnspaced(s);
  }

  /** `toFixed(2)` text has no white space at either end and no radix prefix. */
  lemma ToFixed2Ends(x: real)
    ensures var s := ToFixed2(x);
      s != [] && !IsSpace(s[0]) && IsDigit(s[|s| - 1]) && NonDecimal(s).None?
  {
    ToFixed2Shape(x);
  }

  /** `parseFloat` and `Number()` read the decimal text of a natural number as that number. */
  lemma ParseNatText(n: nat)
    ensures ParseFloat(NatText(n)) == Some(n as real)
    ensures NumberValue(NatText(n)) == Some(n as real)
  {
    var s := NatText(n);
    DigitRunIs(s, 0, |s|);
    NatTextValue(n);
    assert s[0..|s|] == s;
    assert IsDigit(s[0]) && IsDigit(s[|s| - 1]);
    assert ScanUnsigned(s, 0) == Some(Scan(n as real, |s|));
    assert ScanSigned(s, 0) == ScanUnsigned(s, 0);
    assert SkipSpace(s, 0) == 0;
    TrimUnspaced(s);
    assert NonDecimal(s).None?;
  }

  /** A whole number is written with its digits and `.00`. */
  lemma ToFixed2Whole(n: nat)
    ensures ToFixed2(n as real) == NatText(n) + ".00"
  {
    assert CentsOfMagnitude(n as real) == 100 * n;
    assert (100 * n) / 100 == n && (100 * n) % 100 == 0;
  }

  /** Text made only of white space is 0 to `Number()` and NaN to `parseFloat`. */
  lemma BlankText(s: string)
    requires forall k :: 0 <= k < |s| ==> IsSpace(s[k])
    ensures NumberValue(s) == Some(0.0)
    ensures ParseFloat(s) == None
  {
  }
}
