/** Decimal printing (`%d`) and parsing (`strconv.Atoi`) of 64-bit integers. */
module Decimal {
  import opened Wrappers

  const MAX_INT: int := 0x7fff_ffff_ffff_ffff
  const MIN_INT: int := -0x8000_0000_0000_0000

  type Int64 = n: int | MIN_INT <= n <= MAX_INT

  predicate IsDigit(c: char) {
    '0' <= c <= '9'
  }

  function OfNat(n: nat): (s: string)
    ensures |s| > 0 && forall i :: 0 <= i < |s| ==> IsDigit(s[i])
  {
    if n < 10 then [(n + '0' as int) as char] else OfNat(n / 10) + [(n % 10 + '0' as int) as char]
  }

  function OfInt(n: int): string {
    if n < 0 then "-" + OfNat(-n) else OfNat(n)
  }

  /** The value of a non-empty string of digits. */
  function ParseNat(s: string): (r: Option<nat>)
    ensures r.Some? <==> |s| > 0 && forall i :: 0 <= i < |s| ==> IsDigit(s[i])
  {
    if s == "" then None
    else
      var n := |s| - 1;
      if !IsDigit(s[n]) then None
      else if n == 0 then Some(s[n] as int - '0' as int)
      else
        match ParseNat(s[..n])
        case None => None
        case Some(v) => Some(10 * v + (s[n] as int - '0' as int))
  }

  /** An optional sign and digits, with the value in the range of a 64-bit integer. */
  function Atoi(s: string): Option<int> {
    var negative := |s| > 0 && s[0] == '-';
    var digits := if |s| > 0 && (s[0] == '-' || s[0] == '+') then s[1..] else s;
    match ParseNat(digits)
    case None => None
    case Some(v) =>
      var n := if negative then 0 - v else v as int;
      if MIN_INT <= n <= MAX_INT then Some(n) else None
  }

  lemma {:induction false} ParseOfNat(n: nat)
    ensures ParseNat(OfNat(n)) == Some(n)
  {
    if n >= 10 {
      ParseOfNat(n / 10);
      assert OfNat(n)[..|OfNat(n)| - 1] == OfNat(n / 10);
    }
  }

  /** Parsing inverts printing on the whole range. */
  lemma AtoiOfInt(n: int)
    requires MIN_INT <= n <= MAX_INT
    ensures Atoi(OfInt(n)) == Some(n)
  {
    ParseOfNat(if n < 0 then -n else n);
    var s := OfInt(n);
    if n < 0 {
      assert s[1..] == OfNat(-n);
    } else {
      assert IsDigit(s[0]);
    }
  }

  /** A sign may precede the digits, and the value must fit into 64 bits. */
  lemma AtoiSigned(digits: string)
    ensures var v := ParseNat(digits);
            && (v.Some? ==> Atoi(digits) == if v.value <= MAX_INT then Some(v.value) else None)
            && Atoi("+" + digits) == (if v.Some? && v.value <= MAX_INT then Some(v.value) else None)
            && Atoi("-" + digits) == (if v.Some? && 0 - v.value >= MIN_INT then Some(0 - v.value) else None)
  {
    assert ("+" + digits)[1..] == digits && ("-" + digits)[1..] == digits;
    if ParseNat(digits).Some? { assert IsDigit(digits[0]); }
  }

  /** Without a digit at all, or with anything but a sign before the digits, there is no number. */
  lemma AtoiRejects(s: string)
    requires Atoi(s).Some?
    ensures exists digits :: (s == digits || s == "+" + digits || s == "-" + digits) && ParseNat(digits).Some?
  {
    if s[0] == '-' || s[0] == '+' {
      assert s == [s[0]] + s[1..] && ParseNat(s[1..]).Some?;
    }
  }

  /** Leading zeros do not change the value. */
  lemma {:induction false} LeadingZero(digits: string)
    requires ParseNat(digits).Some?
    ensures ParseNat("0" + digits) == ParseNat(digits)
    decreases |digits|
  {
    var n := |digits| - 1;
    var s := "0" + digits;
    assert s[|s| - 1] == digits[n] && s[..|s| - 1] == "0" + digits[..n];
    if n > 0 { LeadingZero(digits[..n]); } else { assert "0" + digits[..n] == "0"; assert ParseNat("0") == Some(0); }
  }

  lemma OfIntInjective(m: int, n: int)
    requires MIN_INT <= m <= MAX_INT && MIN_INT <= n <= MAX_INT && OfInt(m) == OfInt(n)
    ensures m == n
  {
    AtoiOfInt(m);
    AtoiOfInt(n);
  }
}
