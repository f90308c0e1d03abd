/**
 * The JavaScript string primitives the core relies on: `startsWith`,
 * `indexOf`/`includes`, `String.prototype.replace` with a string pattern
 * (first occurrence only, with the `$` patterns of the replacement template),
 * the white-space class used by `Number()` and `parseFloat`, and the decimal
 * text of an integer (`String(n)` for an integral number).
 */
module JsText {

  import opened Wrappers

  /** `s.startsWith(prefix)` */
  predicate StartsWith(s: string, prefix: string) {
    |prefix| <= |s| && s[..|prefix|] == prefix
  }

  /** `pat` occurs in `s` at index `i` */
  predicate OccursAt(s: string, pat: string, i: nat) {
    i + |pat| <= |s| && s[i..i + |pat|] == pat
  }

  /** `s.indexOf(pat, from)`: the least index at or after `from` where `pat` occurs */
  function IndexOf(s: string, pat: string, from: nat): (r: Option<nat>)
    ensures r.Some? ==> from <= r.value && OccursAt(s, pat, r.value)
    ensures r.Some? ==> forall k :: from <= k < r.value ==> !OccursAt(s, pat, k)
    ensures r.None? ==> forall k :: from <= k ==> !OccursAt(s, pat, k)
    decreases |s| - from
  {
    if from + |pat| > |s| then None
    else if s[from..from + |pat|] == pat then Some(from)
    else IndexOf(s, pat, from + 1)
  }

  /** `s.includes(pat)` */
  predicate Includes(s: string, pat: string) {
    IndexOf(s, pat, 0).Some?
  }

  lemma IncludesIffOccurs(s: string, pat: string)
    ensures Includes(s, pat) <==> exists k :: OccursAt(s, pat, k)
  {
    var r := IndexOf(s, pat, 0);
    if r.Some? {
      assert OccursAt(s, pat, r.value);
    }
  }

  /**
   * GetSubstitution for a string pattern (no capture groups): `$$` gives `$`,
   * `$&` the matched text, `` $` `` the text before the match, `$'` the text
   * after it; every other `$` is kept literally.
   */
  function Expand(template: string, matched: string, before: string, after: string): (r: string)
    ensures '$' !in template ==> r == template
    decreases |template|
  {
    if template == [] then []
    else if template[0] == '$' && |template| >= 2 then
      var rest := Expand(template[2..], matched, before, after);
      match template[1]
      case '$' => "$" + rest
      case '&' => matched + rest
      case '`' => before + rest
      case '\'' => after + rest
      case _ => "$" + Expand(template[1..], matched, before, after)
    else [template[0]] + Expand(template[1..], matched, before, after)
  }

  /** `s.replace(pat, template)` with a string `pat`: only the first occurrence is replaced */
  function Replace(s: string, pat: string, template: string): (r: string)
    ensures IndexOf(s, pat, 0).None? ==> r == s
    ensures IndexOf(s, pat, 0).Some? && '$' !in template ==> |r| == |s| - |pat| + |template|
  {
    match IndexOf(s, pat, 0)
    case None => s
    case Some(i) =>
      s[..i] + Expand(template, pat, s[..i], s[i + |pat|..]) + s[i + |pat|..]
  }

  /** Replacing a pattern that does not occur changes nothing. */
  lemma ReplaceAbsent(s: string, pat: string, template: string)
    requires forall k :: !OccursAt(s, pat, k)
    ensures Replace(s, pat, template) == s
  {
  }

  /**
   * With a template free of `$`, the result is the text before the first
   * occurrence, the template, and everything after that occurrence verbatim;
   * later occurrences of the pattern survive.
   */
  lemma ReplaceFirstOnly(s: string, pat: string, template: string, i: nat)
    requires '$' !in template
    requires OccursAt(s, pat, i)
    requires forall k: nat :: k < i ==> !OccursAt(s, pat, k)
    ensures Replace(s, pat, template) == s[..i] + template + s[i + |pat|..]
  {
    assert IndexOf(s, pat, 0) == Some(i);
  }

  /** The character classes WhiteSpace and LineTerminator that `Number()` and `parseFloat` skip */
  predicate IsSpace(c: char) {
    c == '\t' || c == '\n' || c == '\U{B}' || c == '\U{C}' || c == '\r' || c == ' '
    || c == '\U{A0}' || c == '\U{1680}' || ('\U{2000}' <= c <= '\U{200A}')
    || c == '\U{2028}' || c == '\U{2029}' || c == '\U{202F}' || c == '\U{205F}'
    || c == '\U{3000}' || c == '\U{FEFF}'
  }

  /** The first index at or after `i` that is not white space */
  function SkipSpace(s: string, i: nat): (r: nat)
    requires i <= |s|
    ensures i <= r <= |s|
    ensures forall k {:trigger IsSpace(s[k])} :: i <= k < r ==> IsSpace(s[k])
    ensures r == |s| || !IsSpace(s[r])
    decreases |s| - i
  {
    if i < |s| && IsSpace(s[i]) then SkipSpace(s, i + 1) else i
  }

  /** The length of `s` once trailing white space is dropped */
  function TrimEnd(s: string): (r: nat)
    ensures r <= |s|
    ensures forall k {:trigger IsSpace(s[k])} :: r <= k < |s| ==> IsSpace(s[k])
    ensures r == 0 || !IsSpace(s[r - 1])
  {
    if s != [] && IsSpace(s[|s| - 1]) then TrimEnd(s[..|s| - 1]) else |s|
  }

  /** `s.trim()` */
  function Trim(s: string): (r: string)
    ensures r == [] || (!IsSpace(r[0]) && !IsSpace(r[|r| - 1]))
  {
    var e := TrimEnd(s);
    var b := SkipSpace(s[..e], 0);
    s[b..e]
  }

  /** A string that neither starts nor ends with white space is its own trim. */
  lemma TrimUnspaced(s: string)
    requires s != [] && !IsSpace(s[0]) && !IsSpace(s[|s| - 1])
    ensures Trim(s) == s
  {
    assert TrimEnd(s) == |s|;
    assert s[..|s|] == s;
    assert SkipSpace(s, 0) == 0;
  }

  predicate IsDigit(c: char) {
    '0' <= c <= '9'
  }

  function DigitChar(d: nat): (c: char)
    requires d < 10
    ensures IsDigit(c) && c as int == '0' as int + d
  {
    ('0' as int + d) as char
  }

  function DigitOf(c: char): (d: nat)
    requires IsDigit(c)
    ensures d < 10 && DigitChar(d) == c && d == c as int - '0' as int
  {
    (c as int - '0' as int) as nat
  }

  /** The value of a run of decimal digits, most significant first */
  function DigitsValue(ds: string): nat
    requires forall k :: 0 <= k < |ds| ==> IsDigit(ds[k])
  {
    if ds == [] then 0 else DigitsValue(ds[..|ds| - 1]) * 10 + DigitOf(ds[|ds| - 1])
  }

  /** The shortest decimal text of a natural number (no leading zeros) */
  function NatText(n: nat): (r: string)
    ensures |r| >= 1
    ensures forall k :: 0 <= k < |r| ==> IsDigit(r[k])
    ensures |r| > 1 ==> r[0] != '0'
  {
    if n < 10 then [DigitChar(n)] else NatText(n / 10) + [DigitChar(n % 10)]
  }

  /** Reading the text of a number back gives the number. */
  lemma {:induction false} NatTextValue(n: nat)
    ensures DigitsValue(NatText(n)) == n
  {
    var t := NatText(n);
    if n >= 10 {
      NatTextValue(n / 10);
      assert t[..|t| - 1] == NatText(n / 10);
    }
  }

  /** `String(n)` for an integral number */
  function IntText(n: int): (r: string)
    ensures |r| >= 1
    ensures n < 0 <==> r[0] == '-'
    ensures '$' !in r && ':' !in r
  {
    if n < 0 then "-" + NatText(-n) else NatText(n)
  }
}
