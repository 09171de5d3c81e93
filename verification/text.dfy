/** String operations the data service relies on: `toLowerCase`,
    `split('@')[0]`, and the decimal rendering of `Date.now()` inside a
    template literal.
 */
module Text {

  /** `toLowerCase` on one character, restricted to ASCII letters. */
  function LowerChar(c: char): (r: char)
    ensures 'A' <= c <= 'Z' ==> 'a' <= r <= 'z' && r as int - c as int == 32
    ensures !('A' <= c <= 'Z') ==> r == c
  {
    if 'A' <= c <= 'Z' then (c as int + 32) as char else c
  }

  /** `String.prototype.toLowerCase`, on ASCII letters. */
  function Lower(s: string): (r: string)
    ensures |r| == |s|
    ensures forall i :: 0 <= i < |s| ==> r[i] == LowerChar(s[i])
  {
    if |s| == 0 then [] else [LowerChar(s[0])] + Lower(s[1..])
  }

  /** Lower-casing twice is lower-casing once. */
  lemma LowerIdempotent(s: string)
    ensures Lower(Lower(s)) == Lower(s)
  {
    var l := Lower(s);
    assert forall i :: 0 <= i < |l| ==> LowerChar(l[i]) == l[i];
  }

  /** A string without upper-case ASCII letters is its own lower case. */
  lemma LowerOfLowerCase(s: string)
    requires forall i :: 0 <= i < |s| ==> !('A' <= s[i] <= 'Z')
    ensures Lower(s) == s
  {
  }

  /** `s.split('@')[0]`: everything before the first '@', or all of `s`. */
  function LocalPart(s: string): (r: string)
    ensures r <= s
    ensures '@' !in r
    ensures |r| < |s| ==> s[|r|] == '@'
  {
    if |s| == 0 || s[0] == '@' then []
    else [s[0]] + LocalPart(s[1..])
  }

  /** The local part of `name@domain` is `name` when `name` has no '@'. */
  lemma {:induction false} LocalPartOfAddress(name: string, domain: string)
    requires '@' !in name
    ensures LocalPart(name + "@" + domain) == name
  {
    var s := name + "@" + domain;
    var r := LocalPart(s);
    assert s[|name|] == '@';
    assert s[..|name|] == name;
  }

  predicate IsDigit(c: char) {
    '0' <= c <= '9'
  }

  function DigitChar(d: nat): (c: char)
    requires d < 10
    ensures IsDigit(c) && c as int - '0' as int == d
  {
    ('0' as int + d) as char
  }

  /** The decimal numeral of `n` without leading zeros, as a template
      literal renders a non-negative integer. */
  function Decimal(n: nat): (r: string)
    ensures 1 <= |r|
    ensures forall i :: 0 <= i < |r| ==> IsDigit(r[i])
    ensures 1 < |r| ==> r[0] != '0'
  {
    if n < 10 then [DigitChar(n)] else Decimal(n / 10) + [DigitChar(n % 10)]
  }

  /** Reads a string of decimal digits back as a number. */
  function ParseDecimal(s: string): nat
    requires forall i :: 0 <= i < |s| ==> IsDigit(s[i])
  {
    if |s| == 0 then 0
    else
      var d := s[|s| - 1] as int - '0' as int;
      assert IsDigit(s[|s| - 1]);
      ParseDecimal(s[..|s| - 1]) * 10 + d
  }

  /** Reading back a rendered number gives the number. */
  lemma {:induction false} DecimalRoundTrip(n: nat)
    ensures ParseDecimal(Decimal(n)) == n
  {
    if 10 <= n {
      var d := Decimal(n);
      assert d[..|d| - 1] == Decimal(n / 10);
      DecimalRoundTrip(n / 10);
    }
  }

  /** Distinct numbers render as distinct numerals. */
  lemma DecimalInjective(m: nat, n: nat)
    requires Decimal(m) == Decimal(n)
    ensures m == n
  {
    DecimalRoundTrip(m);
    DecimalRoundTrip(n);
  }

  // ---------------------------------------------------------------------
  // The login strings of the seed
  // ---------------------------------------------------------------------

  /** The administrator's login name `admin` is its own lower case and its
      own local part, since it has no '@'. */
  lemma AdminEmailFacts()
    ensures Lower("admin") == "admin" && LocalPart("admin") == "admin"
  {
    LowerOfLowerCase("admin");
    assert '@' !in "admin";
  }

  /** The local part of `ana@example.com` is `ana`. */
  lemma AnaEmailLocalPart()
    ensures LocalPart("ana@example.com") == "ana"
  {
    assert "ana@example.com" == "ana" + "@" + "example.com";
    LocalPartOfAddress("ana", "example.com");
  }

  /** The typed inputs `Ana` and `Admin` lower-case to `ana` and `admin`. */
  lemma TypedLoginsLower()
    ensures Lower("Ana") == "ana"
    ensures Lower("Admin") == "admin"
  {
  }
}
