/** The string handling the screens rely on: `str.strip()`, `LIKE '%t%'`, `int()`, `float()`,
    `str(int)` and `s.split(':', 1)[0]`. */
module Text {
  import opened Common

  /** The characters `str.strip()` removes, those for which `str.isspace()` holds: tab to
      carriage return, the file, group, record and unit separators, space, next line,
      no-break space, and the Unicode space and line and paragraph separators. */
  predicate IsSpace(c: char) {
    ('\t' <= c <= '\r') || ('\U{1c}' <= c <= ' ') || c == '\U{85}' || c == '\U{a0}' ||
    c == '\U{1680}' || ('\U{2000}' <= c <= '\U{200a}') || c == '\U{2028}' || c == '\U{2029}' ||
    c == '\U{202f}' || c == '\U{205f}' || c == '\U{3000}'
  }

  function TrimLeft(s: string): (r: string)
    ensures |r| <= |s| && r == s[|s| - |r|..]
    ensures r == [] || !IsSpace(r[0])
    ensures forall i :: 0 <= i < |s| - |r| ==> IsSpace(s[i])
  {
    if s != [] && IsSpace(s[0]) then TrimLeft(s[1..]) else s
  }

  function TrimRight(s: string): (r: string)
    ensures |r| <= |s| && r == s[..|r|]
    ensures r == [] || !IsSpace(r[|r| - 1])
    ensures forall i :: |r| <= i < |s| ==> IsSpace(s[i])
  {
    if s != [] && IsSpace(s[|s| - 1]) then TrimRight(s[..|s| - 1]) else s
  }

  /** `s.strip()`: the result neither starts nor ends with white space, it is empty exactly
      when `s` is blank, and a string that is already trimmed comes back as it is. */
  function Strip(s: string): (r: string)
    ensures |r| <= |s|
    ensures r == [] || (!IsSpace(r[0]) && !IsSpace(r[|r| - 1]))
    ensures r == [] <==> forall i :: 0 <= i < |s| ==> IsSpace(s[i])
    ensures s == [] || (!IsSpace(s[0]) && !IsSpace(s[|s| - 1])) ==> r == s
  {
    var l := TrimLeft(s);
    assert forall i :: 0 <= i < |l| ==> l[i] == s[|s| - |l| + i];
    TrimRight(l)
  }

  /** `t` occurs in `s` as a contiguous part: what `s LIKE '%t%'` tests once the wildcards
      and case folding inside the term are set aside. */
  predicate Contains(s: string, t: string) {
    t <= s || (s != [] && Contains(s[1..], t))
  }

  /** `t` occurs in `s` starting at position `i`. */
  predicate OccursAt(s: string, t: string, i: int) {
    0 <= i <= |s| - |t| && s[i..i + |t|] == t
  }

  /** Containment is the existence of a position at which `t` occurs. */
  lemma {:induction false} ContainsIff(s: string, t: string)
    ensures Contains(s, t) <==> exists i :: OccursAt(s, t, i)
  {
    if t <= s {
      assert OccursAt(s, t, 0);
    } else if s == [] {
    } else {
      ContainsIff(s[1..], t);
      if Contains(s[1..], t) {
        var i :| OccursAt(s[1..], t, i);
        assert s[i + 1..i + 1 + |t|] == s[1..][i..i + |t|];
        assert OccursAt(s, t, i + 1);
      }
      if exists i :: OccursAt(s, t, i) {
        var i :| OccursAt(s, t, i);
        if i != 0 {
          assert s[1..][i - 1..i - 1 + |t|] == s[i..i + |t|];
          assert OccursAt(s[1..], t, i - 1);
        }
      }
    }
  }

  /** An empty search term is contained in every string, so `LIKE '%%'` keeps every row. */
  lemma EmptyTermMatches(s: string)
    ensures Contains(s, "")
  {
  }

  /** `str.lower()` on the ASCII letters. */
  function Lower(s: string): string {
    if s == [] then []
    else [if 'A' <= s[0] <= 'Z' then (s[0] as int + 32) as char else s[0]] + Lower(s[1..])
  }

  predicate IsDigit(c: char) {
    '0' <= c <= '9'
  }

  predicate AllDigits(s: string) {
    forall i :: 0 <= i < |s| ==> IsDigit(s[i])
  }

  function DigitValue(c: char): nat
    requires IsDigit(c)
  {
    (c as int) - ('0' as int)
  }

  function DigitChar(d: nat): (c: char)
    requires d < 10
    ensures IsDigit(c) && DigitValue(c) == d
  {
    ('0' as int + d) as char
  }

  /** The value of a string of decimal digits; the empty string has value 0. */
  function DigitsValue(s: string): nat
    requires AllDigits(s)
  {
    if s == [] then 0 else DigitsValue(s[..|s| - 1]) * 10 + DigitValue(s[|s| - 1])
  }

  /** The decimal digits of `n`, without leading zeros. */
  function NatToString(n: nat): (s: string)
    ensures s != [] && AllDigits(s)
  {
    if n < 10 then [DigitChar(n)] else NatToString(n / 10) + [DigitChar(n % 10)]
  }

  /** `str(i)` for an integer. */
  function IntToString(i: int): string {
    if i < 0 then "-" + NatToString(-i) else NatToString(i)
  }

  /** `str(i)` is never empty, has no surrounding white space and no colon, and is all
      digits for a non-negative `i`. */
  lemma IntToStringFacts(i: int)
    ensures var s := IntToString(i);
            s != [] && !IsSpace(s[0]) && !IsSpace(s[|s| - 1]) && ':' !in s && (i >= 0 ==> AllDigits(s))
  {
  }

  lemma {:induction false} NatToStringValue(n: nat)
    ensures DigitsValue(NatToString(n)) == n
  {
    if n >= 10 {
      var s := NatToString(n);
      assert s[..|s| - 1] == NatToString(n / 10);
      NatToStringValue(n / 10);
    }
  }

  /** Whether a trimmed number starts with a minus sign. */
  function Negative(t: string): bool {
    t != [] && t[0] == '-'
  }

  /** A trimmed number with its sign, if any, taken off. */
  function Unsigned(t: string): string {
    if t != [] && (t[0] == '-' || t[0] == '+') then t[1..] else t
  }

  /** `int(s)`: surrounding white space is ignored, then an optional sign and at least one digit. */
  function ParseInt(s: string): (r: Option<int>)
    ensures (forall i :: 0 <= i < |s| ==> IsSpace(s[i])) ==> r.None?
  {
    var t := Strip(s);
    var body := Unsigned(t);
    if body != [] && AllDigits(body) then
      var v: int := DigitsValue(body);
      Some(if Negative(t) then -v else v)
    else None
  }

  /** `int(str(i)) == i`. */
  lemma ParseIntRoundTrip(i: int)
    ensures ParseInt(IntToString(i)) == Some(i)
  {
    var s := IntToString(i);
    IntToStringFacts(i);
    assert Strip(s) == s;
    if i < 0 {
      var n := NatToString(-i);
      assert s == "-" + n && Negative(s);
      assert Unsigned(s) == n;
      NatToStringValue(-i);
    } else {
      var n := NatToString(i);
      assert s == n && IsDigit(n[0]) && !Negative(s);
      assert Unsigned(s) == n;
      NatToStringValue(i);
    }
  }

  /** `s.split(':', 1)[0]`: the text before the first colon, or all of `s` when it has none. */
  function BeforeColon(s: string): (r: string)
    ensures r <= s && ':' !in r
    ensures r == s || s[|r|] == ':'
  {
    if s == [] || s[0] == ':' then [] else [s[0]] + BeforeColon(s[1..])
  }

  /** Text before a colon that has no colon itself comes back unchanged. */
  lemma {:induction false} BeforeColonOfPrefix(a: string, b: string)
    requires ':' !in a
    ensures BeforeColon(a + ":" + b) == a
  {
    if a != [] {
      assert (a + ":" + b)[1..] == a[1..] + ":" + b;
      BeforeColonOfPrefix(a[1..], b);
    }
  }

  /** The longest prefix of `s` made of digits. */
  function LeadingDigits(s: string): (r: string)
    ensures r <= s && AllDigits(r)
    ensures r == s || !IsDigit(s[|r|])
  {
    if s != [] && IsDigit(s[0]) then [s[0]] + LeadingDigits(s[1..]) else []
  }

  function Pow10(k: nat): (r: nat)
    ensures r >= 1
  {
    if k == 0 then 1 else 10 * Pow10(k - 1)
  }

  function Signed(neg: bool, x: real): real {
    if neg then -x else x
  }

  /** The value of an unsigned decimal: digits with an optional fractional part, at least
      one digit in all. */
  function Decimal(body: string): Option<real> {
    var whole := LeadingDigits(body);
    var rest := body[|whole|..];
    if rest == [] then
      if whole == [] then None else Some(DigitsValue(whole) as real)
    else if rest[0] == '.' && AllDigits(rest[1..]) && |whole| + |rest| > 1 then
      Some(DigitsValue(whole) as real + DigitsValue(rest[1..]) as real / Pow10(|rest| - 1) as real)
    else None
  }

  /** `float(s)` on plain decimal notation: surrounding white space, an optional sign, then a
      decimal. The value is exact. */
  function ParseNumber(s: string): (r: Option<real>)
    ensures (forall i :: 0 <= i < |s| ==> IsSpace(s[i])) ==> r.None?
  {
    var t := Strip(s);
    match Decimal(Unsigned(t))
    case None => None
    case Some(x) => Some(Signed(Negative(t), x))
  }

  lemma {:induction false} LeadingDigitsAll(s: string)
    requires AllDigits(s)
    ensures LeadingDigits(s) == s
  {
    if s != [] {
      LeadingDigitsAll(s[1..]);
      assert s == [s[0]] + s[1..];
    }
  }

  /** A non-empty string of digits alone reads as that whole number. */
  lemma WholeNumber(body: string)
    requires body != [] && AllDigits(body)
    ensures Decimal(body) == Some(DigitsValue(body) as real)
  {
    LeadingDigitsAll(body);
    assert body[|body|..] == [];
  }

  /** Every string `int()` accepts, `float()` accepts with the same value. */
  lemma IntegersAreNumbers(s: string)
    requires ParseInt(s).Some?
    ensures ParseNumber(s) == Some(ParseInt(s).value as real)
  {
    WholeNumber(Unsigned(Strip(s)));
  }
}
