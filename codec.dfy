/**
 * Text encodings of numbers, strings and lists. Digits is JavaScript's decimal
 * `toString` of a non-negative integer (used for `Date.now().toString()` ids); the
 * length-prefixed forms are the self-delimiting storage format that stands in for
 * JSON text, each with a parser that undoes it.
 */
module Codec {
  import opened Wrappers

  predicate IsDigit(c: char) {
    '0' <= c <= '9'
  }

  function DigitChar(d: nat): (c: char)
    requires d < 10
    ensures IsDigit(c)
  {
    ('0' as int + d) as char
  }

  function DigitValue(c: char): (d: nat)
    requires IsDigit(c)
    ensures d < 10
  {
    c as int - '0' as int
  }

  /** Decimal digits of `n`, most significant first, without leading zeros. */
  function Digits(n: nat): (r: string)
    ensures |r| >= 1
    ensures forall i :: 0 <= i < |r| ==> IsDigit(r[i])
    ensures n > 0 ==> r[0] != '0'
  {
    if n < 10 then [DigitChar(n)] else Digits(n / 10) + [DigitChar(n % 10)]
  }

  /** The number a string of decimal digits denotes. */
  function ValueOf(ds: string): nat
    requires forall i :: 0 <= i < |ds| ==> IsDigit(ds[i])
  {
    if |ds| == 0 then 0 else ValueOf(ds[..|ds| - 1]) * 10 + DigitValue(ds[|ds| - 1])
  }

  /** Reading the digits back gives the number: `toString` loses nothing. */
  lemma {:induction false} ValueOfDigits(n: nat)
    ensures ValueOf(Digits(n)) == n
  {
    if n >= 10 {
      var d := Digits(n / 10);
      assert (d + [DigitChar(n % 10)])[..|d|] == d;
      ValueOfDigits(n / 10);
    }
  }

  /** Distinct numbers have distinct decimal forms, so generated ids differ when clocks differ. */
  lemma DigitsInjective(m: nat, n: nat)
    ensures Digits(m) == Digits(n) ==> m == n
  {
    ValueOfDigits(m);
    ValueOfDigits(n);
  }

  /** Length of the longest prefix of decimal digits. */
  function LeadingDigits(s: string): (k: nat)
    ensures k <= |s|
    ensures forall i :: 0 <= i < k ==> IsDigit(s[i])
    ensures k < |s| ==> !IsDigit(s[k])
  {
    if |s| > 0 && IsDigit(s[0]) then 1 + LeadingDigits(s[1..]) else 0
  }

  lemma {:induction false} LeadingDigitsOf(ds: string, t: string)
    requires forall i :: 0 <= i < |ds| ==> IsDigit(ds[i])
    requires t != [] && !IsDigit(t[0])
    ensures LeadingDigits(ds + t) == |ds|
  {
    if |ds| > 0 {
      assert (ds + t)[1..] == ds[1..] + t;
      LeadingDigitsOf(ds[1..], t);
    }
  }

  /** A number as its digits followed by ';'. */
  function EncodeNat(n: nat): string {
    Digits(n) + ";"
  }

  function ParseNat(s: string): Option<(nat, string)> {
    var k := LeadingDigits(s);
    if k == 0 || k == |s| || s[k] != ';' then None
    else Some((ValueOf(s[..k]), s[k + 1..]))
  }

  lemma ParseEncodeNat(n: nat, rest: string)
    ensures ParseNat(EncodeNat(n) + rest) == Some((n, rest))
  {
    var d := Digits(n);
    var s := EncodeNat(n) + rest;
    assert s == d + (";" + rest);
    LeadingDigitsOf(d, ";" + rest);
    assert s[..|d|] == d;
    assert s[|d| + 1..] == rest;
    ValueOfDigits(n);
  }

  /** A string as its length followed by its characters. */
  function EncodeStr(x: string): string {
    EncodeNat(|x|) + x
  }

  function ParseStr(s: string): Option<(string, string)> {
    match ParseNat(s)
    case None => None
    case Some((n, t)) => if n <= |t| then Some((t[..n], t[n..])) else None
  }

  lemma ParseEncodeStr(x: string, rest: string)
    ensures ParseStr(EncodeStr(x) + rest) == Some((x, rest))
  {
    assert EncodeStr(x) + rest == EncodeNat(|x|) + (x + rest);
    ParseEncodeNat(|x|, x + rest);
    assert (x + rest)[..|x|] == x;
    assert (x + rest)[|x|..] == rest;
  }

  /** `parse` reads back what `enc` writes and leaves whatever followed untouched. */
  ghost predicate RoundTrips<X(!new)>(enc: X -> string, parse: string -> Option<(X, string)>) {
    forall x, rest :: parse(enc(x) + rest) == Some((x, rest))
  }

  function EncodeItems<X>(xs: seq<X>, enc: X -> string): string {
    if |xs| == 0 then "" else enc(xs[0]) + EncodeItems(xs[1..], enc)
  }

  /** Reads `n` items in a row. */
  function ParseItems<X>(n: nat, s: string, parse: string -> Option<(X, string)>): Option<(seq<X>, string)> {
    if n == 0 then Some(([], s))
    else
      match parse(s)
      case None => None
      case Some((x, t)) =>
        match ParseItems(n - 1, t, parse)
        case None => None
        case Some((ys, u)) => Some(([x] + ys, u))
  }

  /** A list as its length followed by its items. */
  function EncodeSeq<X>(xs: seq<X>, enc: X -> string): string {
    EncodeNat(|xs|) + EncodeItems(xs, enc)
  }

  function ParseSeq<X>(s: string, parse: string -> Option<(X, string)>): Option<(seq<X>, string)> {
    match ParseNat(s)
    case None => None
    case Some((n, t)) => ParseItems(n, t, parse)
  }

  lemma {:induction false} ParseEncodeItems<X(!new)>(xs: seq<X>, enc: X -> string, parse: string -> Option<(X, string)>, rest: string)
    requires RoundTrips(enc, parse)
    ensures ParseItems(|xs|, EncodeItems(xs, enc) + rest, parse) == Some((xs, rest))
  {
    if |xs| > 0 {
      var tail := EncodeItems(xs[1..], enc) + rest;
      assert EncodeItems(xs, enc) + rest == enc(xs[0]) + tail;
      assert parse(enc(xs[0]) + tail) == Some((xs[0], tail));
      ParseEncodeItems(xs[1..], enc, parse, rest);
      assert ParseItems(|xs| - 1, tail, parse) == Some((xs[1..], rest));
      assert ParseItems(|xs|, enc(xs[0]) + tail, parse) == Some(([xs[0]] + xs[1..], rest));
      assert [xs[0]] + xs[1..] == xs;
    } else {
      assert EncodeItems(xs, enc) + rest == rest;
    }
  }

  lemma ParseEncodeSeq<X(!new)>(xs: seq<X>, enc: X -> string, parse: string -> Option<(X, string)>, rest: string)
    requires RoundTrips(enc, parse)
    ensures ParseSeq(EncodeSeq(xs, enc) + rest, parse) == Some((xs, rest))
  {
    assert EncodeSeq(xs, enc) + rest == EncodeNat(|xs|) + (EncodeItems(xs, enc) + rest);
    ParseEncodeNat(|xs|, EncodeItems(xs, enc) + rest);
    ParseEncodeItems(xs, enc, parse, rest);
  }

  /** Every encoded list is a non-empty text (so it is truthy where the source tests it). */
  lemma EncodeSeqNonEmpty<X>(xs: seq<X>, enc: X -> string)
    ensures EncodeSeq(xs, enc) != ""
  {
    assert |EncodeNat(|xs|)| >= 2;
  }
}
