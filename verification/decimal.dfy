/**
 * Decimal text of integers, as Rust's `Display` writes an `isize`, and the
 * `Debug` text of an `Option<isize>` (`None` or `Some(n)`), each with a
 * strict parser that accepts exactly the texts the writer produces.
 */
module Decimal {
  import opened Wrappers
  import opened Text

  /** Rust's `isize` on a 64-bit target. */
  const ISIZE_MIN: int := -0x8000_0000_0000_0000
  const ISIZE_MAX: int := 0x7fff_ffff_ffff_ffff

  predicate IsIsize(n: int) {
    ISIZE_MIN <= n <= ISIZE_MAX
  }

  predicate IsDigit(c: char) {
    '0' <= c <= '9'
  }

  function DigitChar(d: nat): (c: char)
    requires d < 10
    ensures IsDigit(c)
  {
    (48 + d) as char
  }

  function DigitValue(c: char): nat
    requires IsDigit(c)
  {
    c as int - 48
  }

  /** A non-empty run of digits without a superfluous leading zero. */
  predicate Canonical(s: string) {
    && |s| >= 1
    && (forall i :: 0 <= i < |s| ==> IsDigit(s[i]))
    && (s[0] == '0' ==> |s| == 1)
  }

  /** The decimal digits of `n`, most significant first. */
  function NatToString(n: nat): (r: string)
    ensures Canonical(r)
    ensures r[0] == '0' <==> n == 0
    decreases n
  {
    if n < 10 then [DigitChar(n)]
    else NatToString(n / 10) + [DigitChar(n % 10)]
  }

  /** The number a run of digits denotes. */
  function DigitsValue(s: string): nat
    requires forall i :: 0 <= i < |s| ==> IsDigit(s[i])
  {
    if |s| == 0 then 0
    else DigitsValue(s[..|s| - 1]) * 10 + DigitValue(s[|s| - 1])
  }

  /** How Rust's `Display` writes an integer: an optional minus sign, then digits. */
  function IntToString(n: int): (r: string)
    ensures |r| >= 1
    ensures r[0] == '-' <==> n < 0
    ensures forall i :: 0 <= i < |r| ==> IsDigit(r[i]) || (i == 0 && r[i] == '-')
  {
    if n < 0 then "-" + NatToString(-n) else NatToString(n)
  }

  /** The integer a `Display` text denotes, or None for any other text. */
  function ParseInt(s: string): Option<int>
  {
    if |s| >= 2 && s[0] == '-' && Canonical(s[1..]) && s[1] != '0' then
      var v: int := DigitsValue(s[1..]);
      Some(-v)
    else if Canonical(s) then
      Some(DigitsValue(s))
    else
      None
  }

  lemma {:induction false} DigitsValueOfNatToString(n: nat)
    ensures DigitsValue(NatToString(n)) == n
    decreases n
  {
    var r := NatToString(n);
    if n >= 10 {
      DigitsValueOfNatToString(n / 10);
      assert r[..|r| - 1] == NatToString(n / 10);
    }
  }

  /** A leading non-zero digit makes the value at least as big as that digit. */
  lemma {:induction false} DigitsValueAtLeastLead(s: string)
    requires Canonical(s)
    ensures DigitsValue(s) >= DigitValue(s[0])
    decreases |s|
  {
    if |s| > 1 {
      var p := s[..|s| - 1];
      assert p[0] == s[0];
      DigitsValueAtLeastLead(p);
    }
  }

  lemma {:induction false} NatToStringOfDigitsValue(s: string)
    requires Canonical(s)
    ensures NatToString(DigitsValue(s)) == s
    decreases |s|
  {
    if |s| > 1 {
      var p := s[..|s| - 1];
      assert p[0] == s[0];
      NatToStringOfDigitsValue(p);
      DigitsValueAtLeastLead(p);
      var v := DigitsValue(s);
      assert v / 10 == DigitsValue(p) && v % 10 == DigitValue(s[|s| - 1]);
      assert s == p + [s[|s| - 1]];
    }
  }

  /**
   * The parser inverts the writer exactly: a text parses to `n` if and only
   * if it is the text written for `n`.
   */
  lemma ParseIntIff(s: string, n: int)
    ensures ParseInt(s) == Some(n) <==> s == IntToString(n)
  {
    if s == IntToString(n) {
      if n < 0 {
        DigitsValueOfNatToString(-n);
        assert s[1..] == NatToString(-n);
      } else {
        DigitsValueOfNatToString(n);
      }
    }
    if ParseInt(s) == Some(n) {
      if |s| >= 2 && s[0] == '-' && Canonical(s[1..]) && s[1] != '0' {
        NatToStringOfDigitsValue(s[1..]);
        DigitsValueAtLeastLead(s[1..]);
        assert s == "-" + s[1..];
      } else {
        NatToStringOfDigitsValue(s);
      }
    }
  }

  lemma ParseIntOfIntToString(n: int)
    ensures ParseInt(IntToString(n)) == Some(n)
  {
    ParseIntIff(IntToString(n), n);
  }

  /** How Rust's `{:?}` writes an `Option<isize>`. */
  function DebugOption(o: Option<int>): (r: string)
    ensures o.None? ==> r == "None"
    ensures o.Some? ==> |r| > 6 && r[..5] == "Some(" && r[|r| - 1] == ')'
  {
    match o
    case None => "None"
    case Some(n) => "Some(" + IntToString(n) + ")"
  }

  /** The option a `{:?}` text denotes, or None for any other text. */
  function ParseDebugOption(s: string): Option<Option<int>>
  {
    if s == "None" then Some(None)
    else match StripAffixes(s, "Some(", ")")
      case None => None
      case Some(digits) =>
        match ParseInt(digits)
        case None => None
        case Some(n) => Some(Some(n))
  }

  /** The `{:?}` parser inverts the writer exactly. */
  lemma ParseDebugOptionIff(s: string, o: Option<int>)
    ensures ParseDebugOption(s) == Some(o) <==> s == DebugOption(o)
  {
    match o
    case None =>
    case Some(n) =>
      if s == DebugOption(o) {
        StripAffixesOf("Some(", IntToString(n), ")");
        ParseIntOfIntToString(n);
        assert s[0] == 'S' && "None"[0] == 'N';
      }
      if ParseDebugOption(s) == Some(o) {
        assert s != "None";
        var digits := StripAffixes(s, "Some(", ")").value;
        ParseIntIff(digits, n);
      }
  }
}
