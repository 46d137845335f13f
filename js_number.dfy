/** JavaScript numbers as the application produces them from text: `Number(s)` and
    `parseFloat(s)`. A finite number is an exact `real` (no binary rounding); `NaN` is kept
    because both conversions produce it and the form validators reject it. */
module JsNumber {
  import opened Text
  import opened Wrappers

  datatype Number = Finite(value: real) | NaN

  predicate IsDigit(c: char) {
    '0' <= c <= '9'
  }

  predicate AllDigits(s: string) {
    forall i :: 0 <= i < |s| ==> IsDigit(s[i])
  }

  function Pow10(n: nat): (p: nat)
    ensures p >= 1
  {
    if n == 0 then 1 else 10 * Pow10(n - 1)
  }

  /** The value of a run of decimal digits, most significant first. */
  function DigitsValue(ds: string): (v: nat)
    requires AllDigits(ds)
    ensures v < Pow10(|ds|)
  {
    if ds == [] then 0
    else DigitsValue(ds[..|ds| - 1]) * 10 + (ds[|ds| - 1] as int - '0' as int)
  }

  lemma DigitsValueSnoc(ds: string, c: char)
    requires AllDigits(ds) && IsDigit(c)
    ensures AllDigits(ds + [c])
    ensures DigitsValue(ds + [c]) == DigitsValue(ds) * 10 + (c as int - '0' as int)
  {
    assert (ds + [c])[..|ds|] == ds;
  }

  /** The exact value of `intPart.fracPart`. */
  function DecimalValue(intPart: string, fracPart: string): real
    requires AllDigits(intPart) && AllDigits(fracPart)
  {
    if fracPart == [] then DigitsValue(intPart) as real
    else DigitsValue(intPart + fracPart) as real / Pow10(|fracPart|) as real
  }

  /** How many decimal digits `s` starts with. */
  function LeadingDigits(s: string): (n: nat)
    ensures n <= |s| && AllDigits(s[..n])
    ensures n < |s| ==> !IsDigit(s[n])
  {
    if s != [] && IsDigit(s[0]) then 1 + LeadingDigits(s[1..]) else 0
  }

  /** An optional leading '+' or '-': whether it was '-', and the text after it. */
  function SplitSign(s: string): (r: (bool, string))
    ensures r.1 == if s != [] && (s[0] == '+' || s[0] == '-') then s[1..] else s
    ensures r.0 <==> s != [] && s[0] == '-'
  {
    if s != [] && s[0] == '-' then (true, s[1..])
    else if s != [] && s[0] == '+' then (false, s[1..])
    else (false, s)
  }

  function Signed(negative: bool, v: real): real {
    if negative then -v else v
  }

  /** The unsigned numerals `Number` accepts: at least one digit, with an optional '.' and
      fraction (`12`, `12.`, `.5`, `12.50`); None for anything else. */
  function UnsignedValue(u: string): Option<real> {
    var n := LeadingDigits(u);
    var rest := u[n..];
    if rest == [] then
      if n == 0 then None else Some(DecimalValue(u, ""))
    else if rest[0] == '.' && AllDigits(rest[1..]) && (n > 0 || |rest| > 1) then
      Some(DecimalValue(u[..n], rest[1..]))
    else None
  }

  /** `Number(s)` for a string `s`: white space at both ends is ignored, the empty string is 0,
      and otherwise the whole text must be an optionally signed unsigned numeral; anything else
      is NaN. */
  function ParseNumber(s: string): (r: Number)
    ensures Trim(s) == [] ==> r == Finite(0.0)
  {
    var t := Trim(s);
    if t == [] then Finite(0.0)
    else
      var (negative, u) := SplitSign(t);
      match UnsignedValue(u)
      case Some(v) => Finite(Signed(negative, v))
      case None => NaN
  }

  /** `parseFloat(s)`: leading white space is skipped, then the longest prefix that is an
      optionally signed decimal numeral is read; NaN when that prefix holds no digit. */
  function ParseFloat(s: string): (r: Number)
    ensures r.Finite? ==> exists i :: 0 <= i < |s| && IsDigit(s[i])
  {
    var (negative, u) := SplitSign(TrimStart(s));
    var n := LeadingDigits(u);
    var rest := u[n..];
    var f := if rest != [] && rest[0] == '.' then LeadingDigits(rest[1..]) else 0;
    if n == 0 && f == 0 then NaN
    else
      assert f > 0 ==> rest[1..][..f] == rest[1..1 + f];
      var r := Finite(Signed(negative, DecimalValue(u[..n], if f == 0 then "" else rest[1..1 + f])));
      assert IsDigit(if n > 0 then u[0] else rest[1]);
      r
  }

  /** `LeadingDigits` stops exactly at the end of a run of digits. */
  lemma {:induction false} LeadingDigitsOfRun(ds: string, t: string)
    requires AllDigits(ds)
    requires t == [] || !IsDigit(t[0])
    ensures LeadingDigits(ds + t) == |ds|
  {
    if ds == [] {
      assert ds + t == t;
    } else {
      assert (ds + t)[1..] == ds[1..] + t;
      LeadingDigitsOfRun(ds[1..], t);
    }
  }

  /** An unsigned numeral `i.f` with a non-empty integer part has its exact value. */
  lemma UnsignedOfDecimal(i: string, f: string)
    requires |i| > 0 && AllDigits(i) && AllDigits(f)
    ensures UnsignedValue(i + "." + f) == Some(DecimalValue(i, f))
  {
    var s := i + "." + f;
    LeadingDigitsOfRun(i, "." + f);
    assert s == i + ("." + f);
    assert s[|i|..] == "." + f && s[..|i|] == i;
    assert ("." + f)[1..] == f;
  }

  /** A run of digits has its value. */
  lemma UnsignedOfDigits(i: string)
    requires |i| > 0 && AllDigits(i)
    ensures UnsignedValue(i) == Some(DigitsValue(i) as real)
  {
    LeadingDigitsOfRun(i, "");
    assert i + "" == i;
    assert i[|i|..] == [];
  }

  /** Text without white space or a leading sign reaches `UnsignedValue` unchanged. */
  lemma NumberOfUnsigned(s: string)
    requires s != [] && NoSpace(s) && s[0] != '+' && s[0] != '-'
    ensures ParseNumber(s) == match UnsignedValue(s) case Some(v) => Finite(v) case None => NaN
  {
    assert Trim(s) == s;
    assert SplitSign(s) == (false, s);
  }

  lemma DigitsAndPointHaveNoSpace(s: string)
    requires forall k :: 0 <= k < |s| ==> IsDigit(s[k]) || s[k] == '.'
    ensures NoSpace(s)
  {
    forall k | 0 <= k < |s| ensures !IsSpace(s[k]) {
      assert IsDigit(s[k]) || s[k] == '.';
    }
  }

  function Zeros(k: nat): (z: string)
    ensures |z| == k && AllDigits(z)
  {
    seq(k, _ => '0')
  }

  /** `1` followed by `k` zeros is ten to the `k`. */
  lemma {:induction false} OneThenZeros(k: nat)
    ensures AllDigits("1" + Zeros(k))
    ensures DigitsValue("1" + Zeros(k)) == Pow10(k)
  {
    if k > 0 {
      OneThenZeros(k - 1);
      assert "1" + Zeros(k) == ("1" + Zeros(k - 1)) + ['0'];
      DigitsValueSnoc("1" + Zeros(k - 1), '0');
    }
  }
}
