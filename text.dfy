/** String building used by the query builders: decimal rendering
    (`strconv.Itoa`, `fmt`'s `%d`) and separator joins. */
module Text {
  import opened Wrappers

  function DigitChar(d: nat): char
    requires d < 10
  {
    "0123456789"[d]
  }

  /** Decimal rendering of a natural number, most significant digit first. */
  function NatToString(n: nat): (s: string)
    ensures |s| >= 1
    ensures forall i | 0 <= i < |s| :: '0' <= s[i] <= '9'
    ensures |s| == 1 <==> n < 10
  {
    if n < 10 then [DigitChar(n)] else NatToString(n / 10) + [DigitChar(n % 10)]
  }

  lemma DigitCharInjective(a: nat, b: nat)
    requires a < 10 && b < 10 && DigitChar(a) == DigitChar(b)
    ensures a == b
  {
  }

  /** Different numbers render differently, so a decimal suffix identifies its number. */
  lemma {:induction false} NatToStringInjective(m: nat, n: nat)
    requires NatToString(m) == NatToString(n)
    ensures m == n
  {
    if m < 10 || n < 10 {
      if m < 10 && n < 10 {
        DigitCharInjective(m, n);
      }
    } else {
      var sm, sn := NatToString(m), NatToString(n);
      assert sm[|sm| - 1] == DigitChar(m % 10);
      assert sn[|sn| - 1] == DigitChar(n % 10);
      DigitCharInjective(m % 10, n % 10);
      assert NatToString(m / 10) == sm[..|sm| - 1];
      assert NatToString(n / 10) == sn[..|sn| - 1];
      NatToStringInjective(m / 10, n / 10);
    }
  }

  /** `fmt`'s `%d` for a signed integer. */
  function IntToString(i: int): string {
    if i < 0 then "-" + NatToString(-i) else NatToString(i)
  }

  predicate AllDigits(s: string) {
    forall i | 0 <= i < |s| :: '0' <= s[i] <= '9'
  }

  /** The number a string of decimal digits denotes, most significant first. */
  function DigitsValue(s: string): nat
    requires AllDigits(s)
  {
    if |s| == 0 then 0 else DigitsValue(s[..|s| - 1]) * 10 + ((s[|s| - 1] as int) - ('0' as int))
  }

  /** A decimal integer literal: an optional sign and at least one digit,
      as PostgreSQL's integer input reads it. */
  function ParseInt(s: string): (r: Option<int>)
    ensures r.Some? ==> |s| > 0
    ensures r.Some? && r.value < 0 ==> s[0] == '-'
  {
    if |s| > 0 && (s[0] == '-' || s[0] == '+') then
      var digits := s[1..];
      if |digits| > 0 && AllDigits(digits) then
        var magnitude: int := DigitsValue(digits);
        Some(if s[0] == '-' then -magnitude else magnitude)
      else None
    else if |s| > 0 && AllDigits(s) then Some(DigitsValue(s))
    else None
  }

  lemma {:induction false} DigitsValueOfNatToString(n: nat)
    ensures AllDigits(NatToString(n)) && DigitsValue(NatToString(n)) == n
  {
    var s := NatToString(n);
    if n >= 10 {
      DigitsValueOfNatToString(n / 10);
      assert s[..|s| - 1] == NatToString(n / 10);
    }
    assert (DigitChar(n % 10) as int) - ('0' as int) == n % 10;
  }

  lemma ParseIntOfDigits(s: string)
    requires |s| > 0 && AllDigits(s)
    ensures ParseInt(s) == Some(DigitsValue(s) as int)
  {
    assert s[0] != '-' && s[0] != '+';
  }

  lemma ParseIntOfNegated(s: string)
    requires |s| > 0 && AllDigits(s)
    ensures ParseInt("-" + s) == Some(-(DigitsValue(s) as int))
  {
    assert ("-" + s)[1..] == s;
  }

  /** Reading back a rendered integer gives the integer. */
  lemma ParseIntOfIntToString(i: int)
    ensures ParseInt(IntToString(i)) == Some(i)
  {
    if i < 0 {
      var m: nat := -i;
      DigitsValueOfNatToString(m);
      ParseIntOfNegated(NatToString(m));
      assert IntToString(i) == "-" + NatToString(m);
    } else {
      DigitsValueOfNatToString(i);
      ParseIntOfDigits(NatToString(i));
      assert IntToString(i) == NatToString(i);
    }
  }

  /** `strings.Join`: the elements with `sep` between consecutive ones. */
  function Join(xs: seq<string>, sep: string): string {
    if |xs| == 0 then ""
    else if |xs| == 1 then xs[0]
    else Join(xs[..|xs| - 1], sep) + sep + xs[|xs| - 1]
  }

  /** What a loop writing `x + sep` for every element accumulates. */
  function Terminated(xs: seq<string>, sep: string): string {
    if |xs| == 0 then "" else Terminated(xs[..|xs| - 1], sep) + xs[|xs| - 1] + sep
  }

  /** Dropping the trailing separator of a terminated list yields the join. */
  lemma {:induction false} TerminatedIsJoinThenSep(xs: seq<string>, sep: string)
    requires |xs| > 0
    ensures Terminated(xs, sep) == Join(xs, sep) + sep
  {
    if |xs| > 1 {
      var init := xs[..|xs| - 1];
      TerminatedIsJoinThenSep(init, sep);
      assert init[..|init|] == init;
    } else {
      assert xs[..0] == [];
    }
  }

  /** A terminated list followed by one last element is the join of all of them. */
  lemma {:induction false} TerminatedThenLast(xs: seq<string>, last: string, sep: string)
    ensures Terminated(xs, sep) + last == Join(xs + [last], sep)
  {
    var all := xs + [last];
    assert all[..|all| - 1] == xs;
    if |xs| > 0 {
      TerminatedIsJoinThenSep(xs, sep);
    }
  }
}
